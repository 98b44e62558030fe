/** Dealing the cards of an age and passing hands around the table
    (CardDistributionManager). The catalogue of cards is a parameter, and
    Collections.shuffle is an arbitrary permutation function. */
module CardDistribution {
  import opened Common
  import opened Ages
  import opened Entities
  import opened GameEntities

  /** Every player is dealt this many cards at the start of an age. */
  const HandSize: nat := 7

  /** Collections.shuffle: the result is a rearrangement of its argument. */
  ghost predicate IsShuffle(shuffle: seq<Card> -> seq<Card>)
  {
    forall s :: multiset(shuffle(s)) == multiset(s)
  }

  /** The cards of an age that a table of n players uses (minPlayerCount <= n). */
  function Eligible(catalogue: seq<Card>, age: Age, n: nat): (r: seq<Card>)
    ensures forall c :: c in r <==> c in catalogue && c.age == age && c.minPlayerCount <= n
    ensures multiset(r) <= multiset(catalogue)
  {
    Keep(Keep(catalogue, (c: Card) => c.age == age), (c: Card) => c.minPlayerCount <= n)
  }

  /** The cards that are not violet. */
  function NonViolet(cards: seq<Card>): (r: seq<Card>)
    ensures forall c :: c in r <==> c in cards && c.cardType != VIOLET
    ensures multiset(r) <= multiset(cards)
  {
    Keep(cards, (c: Card) => c.cardType != VIOLET)
  }

  /** The violet cards. */
  function Violets(cards: seq<Card>): (r: seq<Card>)
    ensures forall c :: c in r <==> c in cards && c.cardType == VIOLET
  {
    Keep(cards, (c: Card) => c.cardType == VIOLET)
  }

  /** The deck before the size check. In Age III the violet cards are stripped from the
      deck first and the violet selection is then drawn from the stripped deck, so it is
      always empty: the subList bound is negative (IllegalArgumentException) when the
      non-violet cards are fewer than 7n and beyond the empty list
      (IndexOutOfBoundsException) when they are more. */
  function Unshuffled(catalogue: seq<Card>, age: Age, n: nat, shuffle: seq<Card> -> seq<Card>): Result<seq<Card>>
  {
    var eligible := Eligible(catalogue, age, n);
    if age == AGE_III then
      var stripped := NonViolet(eligible);
      var violets := shuffle(Violets(stripped));
      var upTo := |stripped| - n * HandSize;
      if upTo < 0 then Throw(IllegalArgument("fromIndex(0) > toIndex"))
      else if upTo > |violets| then Throw(IndexOutOfBounds)
      else Ok(stripped + violets[..upTo])
    else Ok(eligible)
  }

  /** The shuffled deck that is dealt, or the exception distributeCards throws. */
  function Deck(catalogue: seq<Card>, age: Age, n: nat, shuffle: seq<Card> -> seq<Card>): Result<seq<Card>>
  {
    var deck := Unshuffled(catalogue, age, n, shuffle);
    if deck.Throw? then deck
    else if |deck.value| != n * HandSize then Throw(IllegalState("Card distribution failed"))
    else Ok(shuffle(deck.value))
  }

  /** The new player states after a deal: player k receives cards 7k to 7k+6 of the
      shuffled deck and keeps everything else. */
  function DistributeSpec(players: seq<PlayerState>, catalogue: seq<Card>, age: Age,
                          shuffle: seq<Card> -> seq<Card>): (r: Result<seq<PlayerState>>)
  {
    var n := |players|;
    match Deck(catalogue, age, n, shuffle)
    case Throw(e) => Throw(e)
    case Ok(deck) =>
      if |deck| != n * HandSize then Throw(IllegalState("Card distribution failed"))
      else Ok(Dealt(players, deck))
  }

  /** Every hand in seat order, one after the other. */
  function AllHands(players: seq<PlayerState>): seq<Card>
  {
    if players == [] then [] else players[0].hand + AllHands(players[1..])
  }

  /** In Age III the stripped deck holds no violet card, so the violet selection is empty. */
  lemma NoVioletsLeft(cards: seq<Card>, shuffle: seq<Card> -> seq<Card>)
    requires IsShuffle(shuffle)
    ensures shuffle(Violets(NonViolet(cards))) == []
  {
    var v := Violets(NonViolet(cards));
    assert |shuffle(v)| == |multiset(shuffle(v))| == |multiset(v)|;
  }

  /** Before shuffling, the deck is every suitable card outside Age III and every
      non-violet suitable card in Age III. */
  lemma UnshuffledContents(catalogue: seq<Card>, age: Age, n: nat, shuffle: seq<Card> -> seq<Card>)
    requires IsShuffle(shuffle)
    requires Unshuffled(catalogue, age, n, shuffle).Ok?
    ensures Unshuffled(catalogue, age, n, shuffle).value
      == if age == AGE_III then NonViolet(Eligible(catalogue, age, n)) else Eligible(catalogue, age, n)
  {
    if age == AGE_III {
      NoVioletsLeft(Eligible(catalogue, age, n), shuffle);
    }
  }

  /** A deal uses exactly 7n cards of the current age that suit the table; outside Age III
      it uses every such card, and in Age III it uses no violet card at all. */
  lemma DeckContents(catalogue: seq<Card>, age: Age, n: nat, shuffle: seq<Card> -> seq<Card>)
    requires IsShuffle(shuffle)
    requires Deck(catalogue, age, n, shuffle).Ok?
    ensures var deck := Deck(catalogue, age, n, shuffle).value;
      |deck| == n * HandSize
      && multiset(deck) <= multiset(catalogue)
      && (forall c :: c in deck ==> c.age == age && c.minPlayerCount <= n)
      && (age != AGE_III ==> multiset(deck) == multiset(Eligible(catalogue, age, n)))
      && (age == AGE_III ==> forall c :: c in deck ==> c.cardType != VIOLET)
  {
    var eligible := Eligible(catalogue, age, n);
    var unshuffled := Unshuffled(catalogue, age, n, shuffle).value;
    var deck := Deck(catalogue, age, n, shuffle).value;
    UnshuffledContents(catalogue, age, n, shuffle);
    assert multiset(deck) == multiset(unshuffled);
    assert multiset(unshuffled) <= multiset(eligible);
    forall c | c in deck
      ensures c in unshuffled
    {
      assert c in multiset(deck);
    }
  }

  /** Outside Age III the deal fails exactly when the suitable cards are not 7n, and then
      with IllegalStateException. */
  lemma DeckSizeCheck(catalogue: seq<Card>, age: Age, n: nat, shuffle: seq<Card> -> seq<Card>)
    requires age != AGE_III
    ensures Deck(catalogue, age, n, shuffle).Throw?
      <==> |Eligible(catalogue, age, n)| != n * HandSize
    ensures Deck(catalogue, age, n, shuffle).Throw? ==>
      Deck(catalogue, age, n, shuffle).exception.IllegalState?
  {
  }

  /** In Age III only the non-violet suitable cards count: the deal succeeds exactly when
      they are 7n, and otherwise fails with the subList exception. */
  lemma AgeIIIDeckCheck(catalogue: seq<Card>, n: nat, shuffle: seq<Card> -> seq<Card>)
    requires IsShuffle(shuffle)
    ensures var stripped := NonViolet(Eligible(catalogue, AGE_III, n));
      var r := Deck(catalogue, AGE_III, n, shuffle);
      && (r.Ok? <==> |stripped| == n * HandSize)
      && (|stripped| < n * HandSize ==> r.Throw? && r.exception.IllegalArgument?)
      && (|stripped| > n * HandSize ==> r == Throw(IndexOutOfBounds))
  {
    NoVioletsLeft(Eligible(catalogue, AGE_III, n), shuffle);
  }

  /** Seven consecutive cards per player, in seat order, make up the whole deck. */
  lemma {:induction false} HandsTileDeck(players: seq<PlayerState>, deck: seq<Card>)
    requires |deck| == |players| * HandSize
    requires forall k :: 0 <= k < |players| ==> players[k].hand == deck[k * HandSize..(k + 1) * HandSize]
    ensures AllHands(players) == deck
  {
    if players != [] {
      var rest := deck[HandSize..];
      forall k | 0 <= k < |players| - 1
        ensures players[1..][k].hand == rest[k * HandSize..(k + 1) * HandSize]
      {
        assert players[1..][k] == players[k + 1];
        assert rest[k * HandSize..(k + 1) * HandSize] == deck[(k + 1) * HandSize..(k + 2) * HandSize];
      }
      HandsTileDeck(players[1..], rest);
      assert deck == deck[..HandSize] + rest;
    }
  }

  /** A successful deal gives each player seven cards, changes nothing but the hands,
      and hands out every card of the deck exactly once. */
  lemma DealPartitionsDeck(players: seq<PlayerState>, catalogue: seq<Card>, age: Age,
                           shuffle: seq<Card> -> seq<Card>)
    requires DistributeSpec(players, catalogue, age, shuffle).Ok?
    ensures var r := DistributeSpec(players, catalogue, age, shuffle).value;
      |r| == |players|
      && (forall k :: 0 <= k < |r| ==> |r[k].hand| == HandSize && r[k] == players[k].(hand := r[k].hand))
      && AllHands(r) == Deck(catalogue, age, |players|, shuffle).value
  {
    var deck := Deck(catalogue, age, |players|, shuffle).value;
    assert |deck| == |players| * HandSize;
    assert DistributeSpec(players, catalogue, age, shuffle).value == Dealt(players, deck);
    DealtTilesDeck(players, deck);
  }

  /** The player states of a deal of a deck of the right size. */
  function Dealt(players: seq<PlayerState>, deck: seq<Card>): seq<PlayerState>
    requires |deck| == |players| * HandSize
  {
    seq(|players|, k requires 0 <= k < |players| => players[k].(hand := deck[k * HandSize..(k + 1) * HandSize]))
  }

  /** Dealing a deck of the right size gives each player seven cards, changes nothing but
      the hands, and hands out the deck in seat order. */
  lemma DealtTilesDeck(players: seq<PlayerState>, deck: seq<Card>)
    requires |deck| == |players| * HandSize
    ensures var r := Dealt(players, deck);
      |r| == |players|
      && (forall k :: 0 <= k < |r| ==> |r[k].hand| == HandSize && r[k] == players[k].(hand := r[k].hand))
      && AllHands(r) == deck
  {
    HandsTileDeck(Dealt(players, deck), deck);
  }

  /** distributeCards: deals the current age to the game's players, or leaves them
      unchanged and reports the exception. */
  method DistributeCards(g: Game, catalogue: seq<Card>, shuffle: seq<Card> -> seq<Card>)
    returns (error: Option<JavaException>)
    requires g.currentAge.Some?
    modifies g`players
    ensures var r := DistributeSpec(old(g.players), catalogue, g.currentAge.value, shuffle);
      if error.None? then r == Ok(g.players) else r == Throw(error.value) && g.players == old(g.players)
  {
    var n := |g.players|;
    var d := Deck(catalogue, g.currentAge.value, n, shuffle);
    if d.Throw? {
      return Some(d.exception);
    }
    if |d.value| != n * HandSize {
      return Some(IllegalState("Card distribution failed"));
    }
    var deck := d.value;
    ghost var before := g.players;
    for i := 0 to n
      invariant |g.players| == n
      invariant forall k :: 0 <= k < i ==> g.players[k] == before[k].(hand := deck[k * HandSize..(k + 1) * HandSize])
      invariant forall k :: i <= k < n ==> g.players[k] == before[k]
    {
      g.players := g.players[i := g.players[i].(hand := deck[i * HandSize..(i + 1) * HandSize])];
    }
    assert g.players == Dealt(before, deck);
    error := None;
  }

  // ---- rotateHands ----

  /** Seat x comes before seat y once the players are sorted by position (a stable sort). */
  predicate SeatsBefore(players: seq<PlayerState>, x: nat, y: nat)
    requires x < |players| && y < |players|
  {
    players[x].position < players[y].position
    || (players[x].position == players[y].position && x < y)
  }

  /** `order` lists every seat once, sorted by position: the list orderedPlayers. */
  predicate IsPositionOrder(players: seq<PlayerState>, order: seq<nat>)
  {
    |order| == |players|
    && (forall j :: 0 <= j < |order| ==> order[j] < |players|)
    && (forall k :: 0 <= k < |players| ==> k in order)
    && (forall a, b {:trigger SeatsBefore(players, order[a], order[b])} ::
          0 <= a < b < |order| ==> SeatsBefore(players, order[a], order[b]))
  }

  /** The place in the sorted order a hand at sorted place j is passed to. */
  function Target(j: nat, n: nat, clockwise: bool): (t: nat)
    requires j < n
    ensures t == if clockwise then (if j + 1 == n then 0 else j + 1) else (if j == 0 then n - 1 else j - 1)
  {
    ModBelowTwice(j + 1, n);
    ModBelowTwice(j - 1 + n, n);
    if clockwise then (j + 1) % n else (j - 1 + n) % n
  }

  /** The remainder of a number below twice the divisor. */
  lemma ModBelowTwice(x: int, n: nat)
    requires 0 <= x < 2 * n
    ensures x % n == if x < n then x else x - n
  {
    if x >= n {
      assert x == n + (x - n) && 0 <= x - n < n;
      assert x / n == 1;
    }
  }

  /** Passing one way and then the other returns every hand to its place. */
  lemma TargetInverse(j: nat, n: nat, clockwise: bool)
    requires j < n
    ensures Target(Target(j, n, clockwise), n, !clockwise) == j
  {
  }

  /** No seat appears twice in the sorted order. */
  lemma SortedDistinct(players: seq<PlayerState>, order: seq<nat>, a: nat, b: nat)
    requires IsPositionOrder(players, order) && a < b < |order|
    ensures order[a] != order[b]
  {
    assert SeatsBefore(players, order[a], order[b]);
  }

  /** The sorted place of seat order[t] is t. */
  lemma RankOf(players: seq<PlayerState>, order: seq<nat>, t: nat)
    requires IsPositionOrder(players, order) && t < |order|
    ensures FirstIndex(order, order[t]) == t
  {
    var i := FirstIndex(order, order[t]);
    if i < t {
      SortedDistinct(players, order, i, t);
    }
  }

  /** The hands after rotateHands: with two players or more, the seat at sorted place t
      receives the hand that was at the place whose target is t. */
  function RotateSpec(players: seq<PlayerState>, order: seq<nat>, clockwise: bool): (r: seq<PlayerState>)
    requires IsPositionOrder(players, order)
    ensures |r| == |players|
  {
    var n := |players|;
    if n <= 1 then players
    else
      seq(n, k requires 0 <= k < n =>
        players[k].(hand := players[order[Target(FirstIndex(order, k), n, !clockwise)]].hand))
  }

  /** The seat at sorted place t receives the hand from the place whose target is t. */
  lemma RotateAt(players: seq<PlayerState>, order: seq<nat>, clockwise: bool, t: nat)
    requires IsPositionOrder(players, order) && 1 < |players| && t < |order|
    ensures RotateSpec(players, order, clockwise)[order[t]].hand
      == players[order[Target(t, |players|, !clockwise)]].hand
  {
    RankOf(players, order, t);
    var seat := order[t];
    assert RotateSpec(players, order, clockwise)[seat]
      == players[seat].(hand := players[order[Target(FirstIndex(order, seat), |players|, !clockwise)]].hand);
  }

  /** The hands in sorted order. */
  function OrderedHands(players: seq<PlayerState>, order: seq<nat>): (h: seq<seq<Card>>)
    requires forall j :: 0 <= j < |order| ==> order[j] < |players|
    ensures |h| == |order|
  {
    seq(|order|, j requires 0 <= j < |order| => players[order[j]].hand)
  }

  /** A list turned by one place: clockwise the last element comes first. */
  function Rotated<T>(a: seq<T>, clockwise: bool): seq<T>
  {
    if |a| <= 1 then a
    else if clockwise then [a[|a| - 1]] + a[..|a| - 1]
    else a[1..] + [a[0]]
  }

  lemma RotatedKeepsElements<T>(a: seq<T>, clockwise: bool)
    ensures multiset(Rotated(a, clockwise)) == multiset(a)
  {
    if |a| > 1 {
      if clockwise {
        assert a == a[..|a| - 1] + [a[|a| - 1]];
      } else {
        assert a == [a[0]] + a[1..];
      }
    }
  }

  /** Element t of the turned list is the element at the place whose target is t. */
  lemma RotatedAt<T>(a: seq<T>, clockwise: bool, t: nat)
    requires 1 < |a| && t < |a|
    ensures Rotated(a, clockwise)[t] == a[Target(t, |a|, !clockwise)]
  {
  }

  /** Rotation only moves hands and keeps positions, so the sorted order still applies. */
  lemma RotateKeepsOrder(players: seq<PlayerState>, order: seq<nat>, clockwise: bool)
    requires IsPositionOrder(players, order)
    ensures forall k :: 0 <= k < |players| ==>
      RotateSpec(players, order, clockwise)[k] == players[k].(hand := RotateSpec(players, order, clockwise)[k].hand)
    ensures IsPositionOrder(RotateSpec(players, order, clockwise), order)
  {
    var r := RotateSpec(players, order, clockwise);
    forall a, b | 0 <= a < b < |order|
      ensures SeatsBefore(r, order[a], order[b])
    {
      assert SeatsBefore(players, order[a], order[b]);
    }
  }

  /** The hand at sorted place t afterwards is the turned list's element t. */
  lemma RotateTurnsHandAt(players: seq<PlayerState>, order: seq<nat>, clockwise: bool, t: nat)
    requires IsPositionOrder(players, order) && 1 < |players| && t < |order|
    ensures OrderedHands(RotateSpec(players, order, clockwise), order)[t]
      == Rotated(OrderedHands(players, order), clockwise)[t]
  {
    RotateAt(players, order, clockwise, t);
    RotatedAt(OrderedHands(players, order), clockwise, t);
  }

  /** In sorted order the hands are turned by one place: clockwise each player receives
      the hand of the player before them, counter-clockwise of the player after them. */
  lemma RotateTurnsHands(players: seq<PlayerState>, order: seq<nat>, clockwise: bool)
    requires IsPositionOrder(players, order)
    ensures OrderedHands(RotateSpec(players, order, clockwise), order)
      == Rotated(OrderedHands(players, order), clockwise)
  {
    if |players| > 1 {
      forall t | 0 <= t < |order|
        ensures OrderedHands(RotateSpec(players, order, clockwise), order)[t]
          == Rotated(OrderedHands(players, order), clockwise)[t]
      {
        RotateTurnsHandAt(players, order, clockwise, t);
      }
    }
  }

  /** No card is gained or lost: the same hands are held afterwards. */
  lemma RotateKeepsHands(players: seq<PlayerState>, order: seq<nat>, clockwise: bool)
    requires IsPositionOrder(players, order)
    ensures multiset(OrderedHands(RotateSpec(players, order, clockwise), order))
      == multiset(OrderedHands(players, order))
  {
    RotateTurnsHands(players, order, clockwise);
    RotatedKeepsElements(OrderedHands(players, order), clockwise);
  }

  /** Rotating back returns the hand of seat k. */
  lemma RotateBackAt(players: seq<PlayerState>, order: seq<nat>, clockwise: bool, k: nat)
    requires IsPositionOrder(players, order) && 1 < |players| && k < |players|
    requires IsPositionOrder(RotateSpec(players, order, clockwise), order)
    ensures RotateSpec(RotateSpec(players, order, clockwise), order, !clockwise)[k] == players[k]
  {
    var rank := FirstIndex(order, k);
    var m := Target(rank, |players|, clockwise);
    RotateAt(players, order, clockwise, m);
    TargetInverse(rank, |players|, clockwise);
  }

  /** Rotating one way and then the other restores every player's hand. */
  lemma RotateRoundTrip(players: seq<PlayerState>, order: seq<nat>, clockwise: bool)
    requires IsPositionOrder(players, order)
    ensures IsPositionOrder(RotateSpec(players, order, clockwise), order)
    ensures RotateSpec(RotateSpec(players, order, clockwise), order, !clockwise) == players
  {
    RotateKeepsOrder(players, order, clockwise);
    if |players| > 1 {
      forall k | 0 <= k < |players|
        ensures RotateSpec(RotateSpec(players, order, clockwise), order, !clockwise)[k] == players[k]
      {
        RotateBackAt(players, order, clockwise, k);
      }
    }
  }

  /** The sorted place whose hand seat k receives. */
  function SourceOf(order: seq<nat>, k: nat, n: nat, clockwise: bool): (j: nat)
    requires k in order && |order| == n
    ensures j < n
  {
    Target(FirstIndex(order, k), n, !clockwise)
  }

  /** The players after the hands at sorted places 0 .. i-1 have been passed on. */
  ghost predicate PassedUpTo(before: seq<PlayerState>, order: seq<nat>, hands: seq<seq<Card>>,
                             clockwise: bool, cur: seq<PlayerState>, i: nat)
    requires IsPositionOrder(before, order) && |hands| == |before|
  {
    |cur| == |before|
    && forall k :: 0 <= k < |before| ==>
      cur[k] == before[k].(hand :=
        if SourceOf(order, k, |before|, clockwise) < i then hands[SourceOf(order, k, |before|, clockwise)]
        else before[k].hand)
  }

  /** Passing the hand at sorted place i to its target keeps PassedUpTo. */
  lemma PassStep(before: seq<PlayerState>, order: seq<nat>, hands: seq<seq<Card>>,
                 clockwise: bool, cur: seq<PlayerState>, i: nat)
    requires IsPositionOrder(before, order) && |hands| == |before| && i < |before|
    requires PassedUpTo(before, order, hands, clockwise, cur, i)
    ensures var seat := order[Target(i, |before|, clockwise)];
      PassedUpTo(before, order, hands, clockwise, cur[seat := cur[seat].(hand := hands[i])], i + 1)
  {
    var n := |before|;
    var t := Target(i, n, clockwise);
    var seat := order[t];
    RankOf(before, order, t);
    TargetInverse(i, n, clockwise);
    forall k | 0 <= k < n && SourceOf(order, k, n, clockwise) == i
      ensures k == seat
    {
      TargetInverse(FirstIndex(order, k), n, !clockwise);
    }
  }

  /** Once every hand has been passed on, the players are those RotateSpec describes. */
  lemma PassedAll(before: seq<PlayerState>, order: seq<nat>, clockwise: bool, cur: seq<PlayerState>)
    requires IsPositionOrder(before, order) && 1 < |before|
    requires PassedUpTo(before, order, OrderedHands(before, order), clockwise, cur, |before|)
    ensures cur == RotateSpec(before, order, clockwise)
  {
  }

  /** rotateHands: passes every hand one place along the sorted order. */
  method RotateHands(g: Game, order: seq<nat>, clockwise: bool)
    requires IsPositionOrder(g.players, order)
    modifies g`players
    ensures g.players == RotateSpec(old(g.players), order, clockwise)
  {
    var n := |g.players|;
    if n <= 1 {
      return;
    }
    ghost var before := g.players;
    var hands := OrderedHands(g.players, order);
    var i := 0;
    while i < n
      invariant 0 <= i <= n
      invariant PassedUpTo(before, order, hands, clockwise, g.players, i)
    {
      var seat := order[Target(i, n, clockwise)];
      PassStep(before, order, hands, clockwise, g.players, i);
      g.players := g.players[seat := g.players[seat].(hand := hands[i])];
      i := i + 1;
    }
    PassedAll(before, order, clockwise, g.players);
  }
}
