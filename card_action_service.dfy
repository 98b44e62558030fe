/** The older card-action rules (CardActionService): affordability counted on the
    neighbours' resources without any coins, play / build / discard without payment,
    the deal of an age's cards and the end-of-turn handling. An exception inside one of
    its transactional operations rolls the game back to its state on entry. */
module CardActionService {
  import opened Common
  import opened Ages
  import opened Ressources
  import opened Entities
  import opened GameEntities
  import opened CardDistribution
  import CardPlay
  import WonderBuild
  import TurnManager

  // ================================================================ canAffordCost

  /** Seat i exists, and each neighbour it names is a seat of the table (a missing
      neighbour is a null reference). */
  predicate LinksInRange(players: seq<PlayerState>, i: int)
  {
    0 <= i < |players|
    && (players[i].leftNeighbor.Some? ==> players[i].leftNeighbor.value < |players|)
    && (players[i].rightNeighbor.Some? ==> players[i].rightNeighbor.value < |players|)
  }

  /** A shortfall the two neighbours can cover: together they hold at least that much
      of the resource. */
  predicate Coverable(m: Counts, L: Counts, R: Counts, r: Resource)
  {
    r in m && m[r] > 0 && Get(L, r) + Get(R, r) >= m[r]
  }

  /** Sum, over rs, of the coverable shortfalls of one class. */
  function CoveredTotal(rs: seq<Resource>, m: Counts, L: Counts, R: Counts, base: bool): int
  {
    if rs == [] then 0
    else (if Coverable(m, L, R, rs[0]) && CardPlay.InClass(rs[0], base) then m[rs[0]] else 0)
         + CoveredTotal(rs[1..], m, L, R, base)
  }

  /** canAffordCost: the shortfall per class after the player's own resources and
      wildcards; if some remains, both neighbours are dereferenced, and every shortfall
      they can cover together is struck off its class. Coins and two-way pairs play no
      part. */
  function CanAffordSpec(players: seq<PlayerState>, i: int, cost: Counts): (r: Result<bool>)
    requires LinksInRange(players, i)
  {
    var own := players[i].resources;
    var m := CardPlay.Missing(cost, own);
    var mb := CardPlay.MissingCount(m, true) - Get(own, MUTABLE_BASE);
    var ma := CardPlay.MissingCount(m, false) - Get(own, MUTABLE_ADVANCED);
    if mb <= 0 && ma <= 0 then Ok(true)
    else if players[i].leftNeighbor.None? || players[i].rightNeighbor.None? then Throw(NullPointer)
    else
      var L := players[players[i].leftNeighbor.value].resources;
      var R := players[players[i].rightNeighbor.value].resources;
      Ok(mb - CoveredTotal(ConcreteResources, m, L, R, true) <= 0
         && ma - CoveredTotal(ConcreteResources, m, L, R, false) <= 0)
  }

  /** The covered part of a class never exceeds the class's shortfall; it is all of it
      when every shortfall is coverable and nothing when none is. */
  lemma {:induction false} CoveredTotalBounds(rs: seq<Resource>, m: Counts, L: Counts, R: Counts, base: bool)
    requires forall r :: r in m ==> m[r] >= 0
    ensures 0 <= CoveredTotal(rs, m, L, R, base) <= CardPlay.ClassTotal(rs, m, base)
    ensures (forall r :: r in m && m[r] > 0 ==> Coverable(m, L, R, r))
      ==> CoveredTotal(rs, m, L, R, base) == CardPlay.ClassTotal(rs, m, base)
    ensures (forall r :: r in rs && CardPlay.InClass(r, base) ==> !Coverable(m, L, R, r))
      ==> CoveredTotal(rs, m, L, R, base) == 0
  {
    if rs != [] {
      CoveredTotalBounds(rs[1..], m, L, R, base);
      assert forall r :: r in rs[1..] ==> r in rs;
    }
  }

  /** A player whose own production and wildcards cover the cost can afford it, with
      or without neighbours. */
  lemma OwnResourcesSuffice(players: seq<PlayerState>, i: int, cost: Counts)
    requires LinksInRange(players, i)
    requires forall r :: r in cost && IsRessource(r) ==> Get(players[i].resources, r) >= cost[r]
    requires Get(players[i].resources, MUTABLE_BASE) >= 0 && Get(players[i].resources, MUTABLE_ADVANCED) >= 0
    ensures CanAffordSpec(players, i, cost) == Ok(true)
  {
    var m := CardPlay.Missing(cost, players[i].resources);
    CardPlay.ClassTotalZero(ConcreteResources, m, true);
    CardPlay.ClassTotalZero(ConcreteResources, m, false);
  }

  /** A shortfall left after the wildcards dereferences both neighbours: a missing one
      is a NullPointerException. */
  lemma MissingNeighbourThrows(players: seq<PlayerState>, i: int, cost: Counts)
    requires LinksInRange(players, i)
    requires players[i].leftNeighbor.None? || players[i].rightNeighbor.None?
    requires var m := CardPlay.Missing(cost, players[i].resources);
      CardPlay.MissingCount(m, true) > Get(players[i].resources, MUTABLE_BASE)
    ensures CanAffordSpec(players, i, cost) == Throw(NullPointer)
  {
  }

  /** When the neighbours can cover every single shortfall, the cost is affordable,
      however few coins the player holds. */
  lemma NeighboursCoverAll(players: seq<PlayerState>, i: int, cost: Counts)
    requires LinksInRange(players, i)
    requires players[i].leftNeighbor.Some? && players[i].rightNeighbor.Some?
    requires Get(players[i].resources, MUTABLE_BASE) >= 0 && Get(players[i].resources, MUTABLE_ADVANCED) >= 0
    requires var m := CardPlay.Missing(cost, players[i].resources);
      forall r :: r in m && m[r] > 0 ==>
        Coverable(m, players[players[i].leftNeighbor.value].resources,
                  players[players[i].rightNeighbor.value].resources, r)
    ensures CanAffordSpec(players, i, cost) == Ok(true)
  {
    var m := CardPlay.Missing(cost, players[i].resources);
    var L := players[players[i].leftNeighbor.value].resources;
    var R := players[players[i].rightNeighbor.value].resources;
    CoveredTotalBounds(ConcreteResources, m, L, R, true);
    CoveredTotalBounds(ConcreteResources, m, L, R, false);
  }

  /** When a base shortfall survives the wildcards and the neighbours can cover no base
      shortfall at all, the cost is refused. */
  lemma UncoverableRefused(players: seq<PlayerState>, i: int, cost: Counts)
    requires LinksInRange(players, i)
    requires players[i].leftNeighbor.Some? && players[i].rightNeighbor.Some?
    requires var m := CardPlay.Missing(cost, players[i].resources);
      CardPlay.MissingCount(m, true) > Get(players[i].resources, MUTABLE_BASE)
      && forall r :: r in ConcreteResources && IsBaseRessource(r) ==>
        !Coverable(m, players[players[i].leftNeighbor.value].resources,
                   players[players[i].rightNeighbor.value].resources, r)
    ensures CanAffordSpec(players, i, cost) == Ok(false)
  {
    var m := CardPlay.Missing(cost, players[i].resources);
    var L := players[players[i].leftNeighbor.value].resources;
    var R := players[players[i].rightNeighbor.value].resources;
    CoveredTotalBounds(ConcreteResources, m, L, R, true);
  }

  /** The check reads no coins: changing any player's coins leaves the answer as is. */
  lemma CoinsIgnored(players: seq<PlayerState>, i: int, cost: Counts, j: nat, coins: int)
    requires LinksInRange(players, i) && j < |players|
    ensures CanAffordSpec(players[j := players[j].(coins := coins)], i, cost) == CanAffordSpec(players, i, cost)
  {
    var q := players[j := players[j].(coins := coins)];
    assert forall k :: 0 <= k < |players| ==> q[k].resources == players[k].resources;
  }

  /** The loop of canAffordCost over the shortfalls (taken in declaration order; the
      result does not depend on the order): each shortfall the neighbours can cover is
      struck off its class. */
  method StrikeCovered(m: Counts, L: Counts, R: Counts, mb0: int, ma0: int)
    returns (missingBase: int, missingAdvanced: int)
    ensures missingBase == mb0 - CoveredTotal(ConcreteResources, m, L, R, true)
    ensures missingAdvanced == ma0 - CoveredTotal(ConcreteResources, m, L, R, false)
  {
    missingBase, missingAdvanced := mb0, ma0;
    for k := 0 to |ConcreteResources|
      invariant missingBase - CoveredTotal(ConcreteResources[k..], m, L, R, true)
        == mb0 - CoveredTotal(ConcreteResources, m, L, R, true)
      invariant missingAdvanced - CoveredTotal(ConcreteResources[k..], m, L, R, false)
        == ma0 - CoveredTotal(ConcreteResources, m, L, R, false)
    {
      assert ConcreteResources[k..][1..] == ConcreteResources[k + 1..];
      var res := ConcreteResources[k];
      if res in m && m[res] > 0 {
        var amountNeeded := m[res];
        if Get(L, res) + Get(R, res) >= amountNeeded {
          if IsBaseRessource(res) {
            missingBase := missingBase - amountNeeded;
          } else if IsAdvancedRessource(res) {
            missingAdvanced := missingAdvanced - amountNeeded;
          }
        }
      }
    }
  }

  /** canAffordCost. */
  method CanAffordCost(players: seq<PlayerState>, i: int, cost: Counts) returns (r: Result<bool>)
    requires LinksInRange(players, i)
    ensures r == CanAffordSpec(players, i, cost)
  {
    var own := players[i].resources;
    var m := CardPlay.Missing(cost, own);
    var missingBase := CardPlay.MissingCount(m, true) - Get(own, MUTABLE_BASE);
    var missingAdvanced := CardPlay.MissingCount(m, false) - Get(own, MUTABLE_ADVANCED);
    if missingBase <= 0 && missingAdvanced <= 0 {
      return Ok(true);
    }
    if players[i].leftNeighbor.None? || players[i].rightNeighbor.None? {
      return Throw(NullPointer);
    }
    var L := players[players[i].leftNeighbor.value].resources;
    var R := players[players[i].rightNeighbor.value].resources;
    missingBase, missingAdvanced := StrikeCovered(m, L, R, missingBase, missingAdvanced);
    return Ok(missingBase <= 0 && missingAdvanced <= 0);
  }

  // ================================================================ playCard

  /** canPlayCard: a card with a coin cost needs only those coins; a card without one
      needs its resource cost. */
  function CanPlaySpec(players: seq<PlayerState>, i: int, card: Card): (r: Result<bool>)
    requires LinksInRange(players, i)
    ensures card.coinCost.Some? ==> r == Ok(card.coinCost.value <= players[i].coins)
  {
    if card.coinCost.None? then CanAffordSpec(players, i, card.cost)
    else Ok(card.coinCost.value <= players[i].coins)
  }

  /** The players after playCard: the card leaves the hand for the played cards and
      nothing is paid. */
  function PlaySpec(players: seq<PlayerState>, i: nat, card: Card): (r: seq<PlayerState>)
    requires i < |players|
  {
    players[i := players[i].(hand := RemoveFirst(players[i].hand, card),
                             playedCards := players[i].playedCards + [card])]
  }

  /** Playing a card from the hand keeps the player's cards (hand plus played cards)
      and everyone's coins, and touches no other seat. */
  lemma PlayKeepsCards(players: seq<PlayerState>, i: nat, card: Card)
    requires i < |players| && card in players[i].hand
    ensures var r := PlaySpec(players, i, card);
      |r| == |players|
      && multiset(r[i].hand) + multiset(r[i].playedCards)
         == multiset(players[i].hand) + multiset(players[i].playedCards)
      && |r[i].hand| == |players[i].hand| - 1
      && r[i].coins == players[i].coins
      && forall k :: 0 <= k < |players| && k != i ==> r[k] == players[k]
  {
    RemoveFirstSpec(players[i].hand, card);
  }

  /** playCard: moves the card when canPlayCard allows it; an exception of the check
      leaves everything as it was. */
  method PlayCard(g: Game, i: int, card: Card) returns (r: Result<bool>)
    requires LinksInRange(g.players, i)
    modifies g`players
    ensures r == CanPlaySpec(old(g.players), i, card)
    ensures g.players == if r == Ok(true) then PlaySpec(old(g.players), i, card) else old(g.players)
  {
    if card.coinCost.None? {
      r := CanAffordCost(g.players, i, card.cost);
    } else {
      r := Ok(card.coinCost.value <= g.players[i].coins);
    }
    if r == Ok(true) {
      var me := g.players[i];
      me := me.(hand := RemoveFirst(me.hand, card));
      me := me.(playedCards := me.playedCards + [card]);
      g.players := g.players[i := me];
    }
  }

  // ================================================================ buildWonderWithCard

  /** canBuildWonderWithCard: a missing wonder is a null dereference; the "all built"
      guard refuses; a stage index outside the cost list is an index error; otherwise
      the stage's cost decides. As written, the guard is numberOfStages - 1; corrected,
      numberOfStages. */
  function CanBuildWith(players: seq<PlayerState>, i: int, asWritten: bool): (r: Result<bool>)
    requires LinksInRange(players, i)
    ensures players[i].wonder.None? ==> r == Throw(NullPointer)
    ensures r == Ok(true) ==>
      var w := players[i].wonder.value;
      0 <= players[i].wonderStage < |w.stageCosts| && players[i].wonderStage < w.numberOfStages
      && CanAffordSpec(players, i, w.stageCosts[players[i].wonderStage]) == Ok(true)
  {
    var p := players[i];
    if p.wonder.None? then Throw(NullPointer)
    else
      var w := p.wonder.value;
      if (if asWritten then WonderBuild.AllStagesBuiltAsWritten(p.wonderStage, w.numberOfStages)
          else WonderBuild.AllStagesBuilt(p.wonderStage, w.numberOfStages)) then Ok(false)
      else if !(0 <= p.wonderStage < |w.stageCosts|) then Throw(IndexOutOfBounds)
      else CanAffordSpec(players, i, w.stageCosts[p.wonderStage])
  }

  /** As written, the last stage of a wonder can never be built: with the counter at
      numberOfStages - 1 the answer is no, whatever the cost and the resources. */
  lemma LastStageRefusedAsWritten(players: seq<PlayerState>, i: int)
    requires LinksInRange(players, i) && players[i].wonder.Some?
    requires players[i].wonderStage == players[i].wonder.value.numberOfStages - 1
    ensures CanBuildWith(players, i, true) == Ok(false)
  {
  }

  /** Corrected, the last stage is built like any other: a player whose own resources
      cover its cost can build it. */
  lemma LastStageBuildable(players: seq<PlayerState>, i: int)
    requires LinksInRange(players, i) && players[i].wonder.Some?
    requires var w := players[i].wonder.value;
      players[i].wonderStage == w.numberOfStages - 1 && 0 <= players[i].wonderStage < |w.stageCosts|
      && (forall r :: r in w.stageCosts[players[i].wonderStage] && IsRessource(r) ==>
            Get(players[i].resources, r) >= w.stageCosts[players[i].wonderStage][r])
    requires Get(players[i].resources, MUTABLE_BASE) >= 0 && Get(players[i].resources, MUTABLE_ADVANCED) >= 0
    ensures CanBuildWith(players, i, false) == Ok(true)
  {
    OwnResourcesSuffice(players, i, players[i].wonder.value.stageCosts[players[i].wonderStage]);
  }

  /** The players after buildWonderWithCard: the card goes under the wonder and the
      stage counter advances; nothing is paid. */
  function BuildSpec(players: seq<PlayerState>, i: nat, card: Card): (r: seq<PlayerState>)
    requires i < |players|
  {
    players[i := players[i].(hand := RemoveFirst(players[i].hand, card),
                             wonderStage := players[i].wonderStage + 1,
                             wonderCards := players[i].wonderCards + [card])]
  }

  /** Building with a card from the hand advances the counter by exactly one, keeps the
      player's cards (hand plus wonder cards) and coins, and touches no other seat. */
  lemma BuildKeepsCards(players: seq<PlayerState>, i: nat, card: Card)
    requires i < |players| && card in players[i].hand
    ensures var r := BuildSpec(players, i, card);
      |r| == |players|
      && r[i].wonderStage == players[i].wonderStage + 1
      && multiset(r[i].hand) + multiset(r[i].wonderCards)
         == multiset(players[i].hand) + multiset(players[i].wonderCards)
      && r[i].coins == players[i].coins
      && forall k :: 0 <= k < |players| && k != i ==> r[k] == players[k]
  {
    RemoveFirstSpec(players[i].hand, card);
  }

  /** buildWonderWithCard, with the corrected guard; an exception of the check leaves
      everything as it was. */
  method BuildWonderWithCard(g: Game, i: int, card: Card) returns (r: Result<bool>)
    requires LinksInRange(g.players, i)
    modifies g`players
    ensures r == CanBuildWith(old(g.players), i, false)
    ensures g.players == if r == Ok(true) then BuildSpec(old(g.players), i, card) else old(g.players)
  {
    var p := g.players[i];
    if p.wonder.None? {
      return Throw(NullPointer);
    }
    var w := p.wonder.value;
    if WonderBuild.AllStagesBuilt(p.wonderStage, w.numberOfStages) {
      return Ok(false);
    }
    if !(0 <= p.wonderStage < |w.stageCosts|) {
      return Throw(IndexOutOfBounds);
    }
    r := CanAffordCost(g.players, i, w.stageCosts[p.wonderStage]);
    if r == Ok(true) {
      p := p.(hand := RemoveFirst(p.hand, card));
      p := p.(wonderStage := p.wonderStage + 1);
      p := p.(wonderCards := p.wonderCards + [card]);
      g.players := g.players[i := p];
    }
  }

  // ================================================================ distributeCards

  /** cardService.getCardsByAge: the catalogue's cards of an age. */
  function CardsOfAge(catalogue: seq<Card>, age: Age): (r: seq<Card>)
    ensures forall c :: c in r <==> c in catalogue && c.age == age
  {
    Keep(catalogue, (c: Card) => c.age == age)
  }

  /** The cards of the age that suit a table of n players. */
  function Suitable(catalogue: seq<Card>, age: Age, n: nat): (r: seq<Card>)
    ensures forall c :: c in r <==> c in catalogue && c.age == age && c.minPlayerCount <= n
  {
    Keep(CardsOfAge(catalogue, age), (c: Card) => c.minPlayerCount <= n)
  }

  /** The n + 2 guilds drawn from the shuffled violet cards (empty when there are too
      few, where subList throws). */
  function Drawn(catalogue: seq<Card>, n: nat, shuffle: seq<Card> -> seq<Card>): (r: seq<Card>)
  {
    var violets := shuffle(Violets(Suitable(catalogue, AGE_III, n)));
    if n + 2 <= |violets| then violets[..n + 2] else []
  }

  /** The Age III filter applied before the drawn guilds are added: as written it keeps
      a card that is not violet or suits the table, which every suitable card does;
      the evident intent is to drop the violet cards. */
  function Kept(suitable: seq<Card>, n: nat, asWritten: bool): (r: seq<Card>)
  {
    if asWritten then Keep(suitable, (c: Card) => c.cardType != VIOLET || c.minPlayerCount <= n)
    else NonViolet(suitable)
  }

  /** The shuffled deck distributeCards slices: the suitable cards, and in Age III the
      kept cards followed by the drawn guilds. */
  function AgeDeck(catalogue: seq<Card>, age: Age, n: nat, shuffle: seq<Card> -> seq<Card>,
                   asWritten: bool): (r: Result<seq<Card>>)
  {
    var suitable := Suitable(catalogue, age, n);
    if age == AGE_III then
      if n + 2 > |shuffle(Violets(suitable))| then Throw(IndexOutOfBounds)
      else Ok(shuffle(Kept(suitable, n, asWritten) + Drawn(catalogue, n, shuffle)))
    else Ok(shuffle(suitable))
  }

  /** Multiplying by a natural number keeps the order. */
  lemma {:induction false} MulMonotone(a: nat, b: nat, h: nat)
    requires a <= b
    ensures a * h <= b * h
  {
    if a < b {
      MulMonotone(a, b - 1, h);
      assert b * h == (b - 1) * h + h;
    }
  }

  /** Bounds of the k-th slice of h cards among n. */
  lemma SliceInRange(k: nat, n: nat, h: nat)
    requires k < n
    ensures 0 <= k * h <= (k + 1) * h <= n * h
  {
    MulMonotone(k + 1, n, h);
    assert (k + 1) * h == k * h + h;
  }

  /** The hand size of distributeCards: the age's cards divided by the players. */
  function HandShare(total: nat, n: nat): (h: nat)
    requires n > 0
  {
    total / n
  }

  /** The k-th slice of h cards of the deck: the hand of player k of n. */
  function Slice(deck: seq<Card>, n: nat, h: nat, k: nat): (hand: seq<Card>)
    requires k < n && n * h <= |deck|
    ensures |hand| == h && (k + 1) * h <= |deck| && hand == deck[k * h..(k + 1) * h]
  {
    SliceInRange(k, n, h);
    deck[k * h..(k + 1) * h]
  }

  /** distributeCards: the hand size is the number of the age's cards, before the
      player-count filter, divided by the number of players (ArithmeticException without
      players); player k gets the k-th slice of that size of the shuffled deck, and a
      slice beyond the deck is an IndexOutOfBoundsException. */
  function DealSpec(players: seq<PlayerState>, catalogue: seq<Card>, age: Age,
                    shuffle: seq<Card> -> seq<Card>, asWritten: bool): (r: Result<seq<PlayerState>>)
    ensures r.Ok? ==> |r.value| == |players|
  {
    var n := |players|;
    if n == 0 then Throw(Arithmetic)
    else
      var h := HandShare(|CardsOfAge(catalogue, age)|, n);
      match AgeDeck(catalogue, age, n, shuffle, asWritten)
      case Throw(e) => Throw(e)
      case Ok(deck) =>
        if n * h > |deck| then Throw(IndexOutOfBounds)
        else Ok(Dealt(players, deck, h))
  }

  /** Dropping the first slice shifts the others down by one place. */
  lemma SliceShift(deck: seq<Card>, n: nat, h: nat, k: nat)
    requires k + 1 < n && n * h <= |deck|
    ensures h <= |deck| && (n - 1) * h <= |deck[h..]|
    ensures Slice(deck[h..], n - 1, h, k) == Slice(deck, n, h, k + 1)
  {
    SliceInRange(k + 1, n, h);
    assert n * h == h + (n - 1) * h;
    assert (k + 2) * h == (k + 1) * h + h;
  }

  /** Consecutive slices of h cards, one per player, make up the first n * h cards. */
  lemma {:induction false} SlicesTile(players: seq<PlayerState>, deck: seq<Card>, h: nat)
    requires |players| * h <= |deck|
    requires forall k :: 0 <= k < |players| ==> players[k].hand == Slice(deck, |players|, h, k)
    ensures 0 <= |players| * h && AllHands(players) == deck[..|players| * h]
  {
    var n := |players|;
    if players != [] {
      SliceInRange(0, n, h);
      var rest := deck[h..];
      forall k | 0 <= k < n - 1
        ensures players[1..][k].hand == Slice(rest, n - 1, h, k)
      {
        SliceShift(deck, n, h, k);
      }
      SlicesTile(players[1..], rest, h);
      TakeSplit(deck, n, h);
    }
  }

  /** The first n * h cards are the first h cards and then the next (n - 1) * h. */
  lemma TakeSplit(deck: seq<Card>, n: nat, h: nat)
    requires 0 < n && n * h <= |deck|
    ensures h <= |deck| && 0 <= (n - 1) * h <= |deck[h..]|
    ensures deck[..n * h] == deck[..h] + deck[h..][..(n - 1) * h]
  {
    var m := (n - 1) * h;
    assert n * h == h + m;
    assert deck[..h + m] == deck[..h] + deck[h..][..m];
  }

  /** Player k gets the k-th slice of h cards and keeps everything else. */
  function Dealt(players: seq<PlayerState>, deck: seq<Card>, h: nat): (r: seq<PlayerState>)
    requires |players| * h <= |deck|
    ensures |r| == |players|
  {
    seq(|players|, k requires 0 <= k < |players| => players[k].(hand := Slice(deck, |players|, h, k)))
  }

  /** The dealt hands, in seat order, are the first n * h cards of the deck. */
  lemma DealtTilesDeck(players: seq<PlayerState>, deck: seq<Card>, h: nat)
    requires |players| * h <= |deck|
    ensures AllHands(Dealt(players, deck, h)) == deck[..|players| * h]
  {
    SlicesTile(Dealt(players, deck, h), deck, h);
  }

  /** A successful deal changes nothing but the hands; every player gets as many cards
      as the age holds per player, and the hands, in seat order, are the start of the
      shuffled deck. */
  lemma DealSlicesDeck(players: seq<PlayerState>, catalogue: seq<Card>, age: Age,
                       shuffle: seq<Card> -> seq<Card>, asWritten: bool)
    requires DealSpec(players, catalogue, age, shuffle, asWritten).Ok?
    ensures var r := DealSpec(players, catalogue, age, shuffle, asWritten).value;
      var h := HandShare(|CardsOfAge(catalogue, age)|, |players|);
      var deck := AgeDeck(catalogue, age, |players|, shuffle, asWritten).value;
      |r| == |players| && 0 <= |players| * h <= |deck|
      && (forall k :: 0 <= k < |r| ==> |r[k].hand| == h && r[k] == players[k].(hand := r[k].hand))
      && AllHands(r) == deck[..|players| * h]
  {
    var n := |players|;
    assert n > 0;
    var h := HandShare(|CardsOfAge(catalogue, age)|, n);
    var deck := AgeDeck(catalogue, age, n, shuffle, asWritten).value;
    assert n * h <= |deck|;
    var r := DealSpec(players, catalogue, age, shuffle, asWritten).value;
    assert r == Dealt(players, deck, h);
    MulMonotone(0, n, h);
    DealtTilesDeck(players, deck, h);
  }

  /** The ways a deal fails: no players, too few guilds for the Age III draw, or a
      slice beyond the deck; outside Age III the last happens exactly when the suitable
      cards are fewer than the slices need. */
  lemma DealFailures(players: seq<PlayerState>, catalogue: seq<Card>, age: Age,
                     shuffle: seq<Card> -> seq<Card>, asWritten: bool)
    requires IsShuffle(shuffle)
    ensures players == [] ==> DealSpec(players, catalogue, age, shuffle, asWritten) == Throw(Arithmetic)
    ensures players != [] && age == AGE_III && |Violets(Suitable(catalogue, age, |players|))| < |players| + 2
      ==> DealSpec(players, catalogue, age, shuffle, asWritten) == Throw(IndexOutOfBounds)
    ensures players != [] && age != AGE_III ==>
      (DealSpec(players, catalogue, age, shuffle, asWritten).Ok?
       <==> |players| * (HandShare(|CardsOfAge(catalogue, age)|, |players|)) <= |Suitable(catalogue, age, |players|)|)
  {
    var n := |players|;
    var v := Violets(Suitable(catalogue, age, n));
    assert |shuffle(v)| == |multiset(shuffle(v))| == |multiset(v)|;
    var s := Suitable(catalogue, age, n);
    assert |shuffle(s)| == |multiset(shuffle(s))| == |multiset(s)|;
  }

  /** A shuffled concatenation holds each card as often as its two parts together. */
  lemma ShuffledCount(shuffle: seq<Card> -> seq<Card>, a: seq<Card>, b: seq<Card>, c: Card)
    requires IsShuffle(shuffle)
    ensures multiset(shuffle(a + b))[c] == multiset(a)[c] + multiset(b)[c]
  {
    assert multiset(a + b) == multiset(a) + multiset(b);
  }

  /** The drawn guilds are suitable violet cards, n + 2 of them. */
  lemma DrawnGuilds(catalogue: seq<Card>, n: nat, shuffle: seq<Card> -> seq<Card>)
    requires IsShuffle(shuffle)
    requires AgeDeck(catalogue, AGE_III, n, shuffle, false).Ok? || AgeDeck(catalogue, AGE_III, n, shuffle, true).Ok?
    ensures |Drawn(catalogue, n, shuffle)| == n + 2
    ensures forall c :: c in Drawn(catalogue, n, shuffle) ==> c.cardType == VIOLET && c in Suitable(catalogue, AGE_III, n)
  {
    var suitable := Suitable(catalogue, AGE_III, n);
    var v := Violets(suitable);
    var sv := shuffle(v);
    assert n + 2 <= |sv|;
    var d := sv[..n + 2];
    assert Drawn(catalogue, n, shuffle) == d;
    assert multiset(sv) == multiset(v);
    forall c | c in d
      ensures c in v
    {
      assert c in sv;
      assert c in multiset(sv);
    }
  }

  /** As written, the Age III deck keeps every suitable violet card and then adds the
      drawn guilds again: each drawn guild is in the deck at least twice. */
  lemma GuildsDealtTwice(catalogue: seq<Card>, n: nat, shuffle: seq<Card> -> seq<Card>, c: Card)
    requires IsShuffle(shuffle)
    requires AgeDeck(catalogue, AGE_III, n, shuffle, true).Ok?
    requires c in Drawn(catalogue, n, shuffle)
    ensures multiset(AgeDeck(catalogue, AGE_III, n, shuffle, true).value)[c] >= 2
  {
    var suitable := Suitable(catalogue, AGE_III, n);
    var drawn := Drawn(catalogue, n, shuffle);
    DrawnGuilds(catalogue, n, shuffle);
    ShuffledCount(shuffle, Kept(suitable, n, true), drawn, c);
    assert multiset(Kept(suitable, n, true))[c] == multiset(suitable)[c];
    assert c in multiset(suitable) && c in multiset(drawn);
  }

  /** Corrected, the Age III deck holds the suitable non-violet cards and, of the violet
      cards, exactly the drawn guilds. */
  lemma GuildsDealtOnce(catalogue: seq<Card>, n: nat, shuffle: seq<Card> -> seq<Card>, c: Card)
    requires IsShuffle(shuffle)
    requires AgeDeck(catalogue, AGE_III, n, shuffle, false).Ok?
    ensures var deck := AgeDeck(catalogue, AGE_III, n, shuffle, false).value;
      |Drawn(catalogue, n, shuffle)| == n + 2
      && (c.cardType == VIOLET ==> multiset(deck)[c] == multiset(Drawn(catalogue, n, shuffle))[c])
      && (c.cardType != VIOLET ==> multiset(deck)[c] == multiset(Suitable(catalogue, AGE_III, n))[c])
  {
    var suitable := Suitable(catalogue, AGE_III, n);
    var drawn := Drawn(catalogue, n, shuffle);
    DrawnGuilds(catalogue, n, shuffle);
    ShuffledCount(shuffle, Kept(suitable, n, false), drawn, c);
    if c.cardType == VIOLET {
      assert c !in multiset(NonViolet(suitable));
    } else {
      assert c !in multiset(drawn);
      assert multiset(NonViolet(suitable))[c] == multiset(suitable)[c] by {
        if c in suitable {
          assert c in NonViolet(suitable);
        }
      }
    }
  }

  /** handleGameCreation and distributeCards, with the corrected Age III deck: deals the
      current age, or leaves the players unchanged and reports the exception. */
  method DealAgeCards(g: Game, catalogue: seq<Card>, shuffle: seq<Card> -> seq<Card>)
    returns (error: Option<JavaException>)
    requires g.currentAge.Some?
    modifies g`players
    ensures var r := DealSpec(old(g.players), catalogue, g.currentAge.value, shuffle, false);
      if error.None? then r == Ok(g.players) else (r == Throw(error.value) && g.players == old(g.players))
  {
    var n := |g.players|;
    if n == 0 {
      return Some(Arithmetic);
    }
    var age := g.currentAge.value;
    var handSize := HandShare(|CardsOfAge(catalogue, age)|, n);
    var d := AgeDeck(catalogue, age, n, shuffle, false);
    if d.Throw? {
      return Some(d.exception);
    }
    var deck := d.value;
    if n * handSize > |deck| {
      return Some(IndexOutOfBounds);
    }
    ghost var before := g.players;
    for i := 0 to n
      invariant |g.players| == n
      invariant forall k :: 0 <= k < i ==> g.players[k] == before[k].(hand := Slice(deck, n, handSize, k))
      invariant forall k :: i <= k < n ==> g.players[k] == before[k]
    {
      SliceInRange(i, n, handSize);
      var hand := deck[i * handSize..(i + 1) * handSize];
      assert hand == Slice(deck, n, handSize, i);
      g.players := g.players[i := g.players[i].(hand := hand)];
    }
    ghost var r := DealSpec(before, catalogue, age, shuffle, false).value;
    assert forall k :: 0 <= k < n ==> r[k] == g.players[k];
    assert r == g.players;
    error := None;
  }

  // ================================================================ handleEndOfTurn

  /** The end-of-age discard loop as written: once per player, the acting player's
      first card goes to the discard pile, so a hand shorter than the table makes
      List.remove(0) throw. */
  function ActorDiscards(players: seq<PlayerState>, actor: nat, discard: seq<Card>)
    : (r: Result<(seq<PlayerState>, seq<Card>)>)
    requires actor < |players|
  {
    var hand := players[actor].hand;
    if |hand| < |players| then Throw(IndexOutOfBounds)
    else Ok((players[actor := players[actor].(hand := hand[|players|..])], discard + hand[..|players|]))
  }

  /** The move to the next age after the last card: the age advances and, unless the
      ages are over, the new age is dealt with the corrected deck. */
  function OpenNextAge(t: TurnManager.Table, catalogue: seq<Card>, shuffle: seq<Card> -> seq<Card>)
    : (r: Result<TurnManager.Table>)
    ensures NextAge(t.age).None? ==> r == Ok(t.(age := None))
    ensures r.Ok? ==> (r.value.age == NextAge(t.age) && r.value.status == t.status
                       && r.value.discard == t.discard && |r.value.players| == |t.players|)
  {
    var age := NextAge(t.age);
    if age.None? then Ok(t.(age := None))
    else
      match DealSpec(t.players, catalogue, age.value, shuffle, false)
      case Throw(e) => Throw(e)
      case Ok(p3) => Ok(t.(age := age, players := p3))
  }

  /** handleEndOfTurn. The turn closes once every player has played: the flags are
      reset; with the acting player's last card, every player discards one card, the
      age advances and, unless the ages are over, the new age is dealt; with two cards
      or more, the age advances (as the source does every turn) and the hands pass in
      the new age's direction. As written, the discard takes every card from the acting
      player; corrected, each player discards their own first card. */
  function EndOfTurnSpec(t: TurnManager.Table, actor: nat, catalogue: seq<Card>, shuffle: seq<Card> -> seq<Card>,
                         order: seq<nat>, asWritten: bool): (r: Result<TurnManager.Table>)
    requires actor < |t.players| && IsPositionOrder(t.players, order)
  {
    var remaining := |t.players[actor].hand|;
    if !TurnManager.AllPlayed(t.players) then Ok(t)
    else
      var p1 := TurnManager.ResetFlags(t.players);
      if remaining == 1 then
        var d := if asWritten then ActorDiscards(p1, actor, t.discard) else TurnManager.DiscardFirstCards(p1, t.discard);
        match d
        case Throw(e) => Throw(e)
        case Ok((p2, d2)) => OpenNextAge(TurnManager.Table(t.status, t.age, p2, d2), catalogue, shuffle)
      else if remaining >= 2 then
        var age := NextAge(t.age);
        TurnManager.PositionOrderKept(t.players, p1, order);
        Ok(TurnManager.Table(t.status, age, RotateSpec(p1, order, TurnManager.Clockwise(age)), t.discard))
      else Ok(t.(players := p1))
  }

  /** Until every player has played, the turn changes nothing. */
  lemma WaitsForAllPlayers(t: TurnManager.Table, actor: nat, catalogue: seq<Card>, shuffle: seq<Card> -> seq<Card>,
                           order: seq<nat>, asWritten: bool)
    requires actor < |t.players| && IsPositionOrder(t.players, order) && !TurnManager.AllPlayed(t.players)
    ensures EndOfTurnSpec(t, actor, catalogue, shuffle, order, asWritten) == Ok(t)
  {
  }

  /** As written, the acting player's single last card cannot serve as the discard of
      two players or more: the turn fails with IndexOutOfBoundsException and is rolled
      back, so an age never closes at a table of two or more. */
  lemma LastCardThrowsAsWritten(t: TurnManager.Table, actor: nat, catalogue: seq<Card>,
                                shuffle: seq<Card> -> seq<Card>, order: seq<nat>)
    requires actor < |t.players| && IsPositionOrder(t.players, order) && TurnManager.AllPlayed(t.players)
    requires |t.players| >= 2 && |t.players[actor].hand| == 1
    ensures EndOfTurnSpec(t, actor, catalogue, shuffle, order, true) == Throw(IndexOutOfBounds)
  {
    assert TurnManager.ResetFlags(t.players)[actor].hand == t.players[actor].hand;
  }

  /** Corrected, when every player holds a card at the last card, each player's first
      card goes to the discard pile in seat order and the age advances; after the last
      age the turn succeeds and leaves the rest of each hand. */
  lemma LastCardDiscards(t: TurnManager.Table, actor: nat, catalogue: seq<Card>,
                         shuffle: seq<Card> -> seq<Card>, order: seq<nat>)
    requires actor < |t.players| && IsPositionOrder(t.players, order) && TurnManager.AllPlayed(t.players)
    requires |t.players[actor].hand| == 1
    requires forall k :: 0 <= k < |t.players| ==> t.players[k].hand != []
    ensures var r := EndOfTurnSpec(t, actor, catalogue, shuffle, order, false);
      (NextAge(t.age).None? ==> r.Ok?)
      && (r.Ok? ==>
        r.value.age == NextAge(t.age) && r.value.status == t.status && |r.value.players| == |t.players|
        && r.value.discard == t.discard + seq(|t.players|, k requires 0 <= k < |t.players| => t.players[k].hand[0]))
      && (r.Ok? && r.value.age.None? ==>
        forall k :: 0 <= k < |t.players| ==> r.value.players[k].hand == t.players[k].hand[1..])
  {
    var p1 := TurnManager.ResetFlags(t.players);
    TurnManager.DiscardFirstCardsOf(p1, t.players, t.discard);
  }

  /** With two cards or more in the acting player's hand, the turn succeeds: the age
      advances, the hands pass one place in the new age's direction, the discard pile
      stays and every flag is cleared. */
  lemma MidAgeAdvancesAndRotates(t: TurnManager.Table, actor: nat, catalogue: seq<Card>,
                                 shuffle: seq<Card> -> seq<Card>, order: seq<nat>, asWritten: bool)
    requires actor < |t.players| && IsPositionOrder(t.players, order) && TurnManager.AllPlayed(t.players)
    requires |t.players[actor].hand| >= 2
    ensures var r := EndOfTurnSpec(t, actor, catalogue, shuffle, order, asWritten);
      r.Ok? && r.value.age == NextAge(t.age) && r.value.status == t.status && r.value.discard == t.discard
      && IsPositionOrder(r.value.players, order)
      && OrderedHands(r.value.players, order)
         == Rotated(OrderedHands(t.players, order), TurnManager.Clockwise(NextAge(t.age)))
      && forall k :: 0 <= k < |t.players| ==> !r.value.players[k].hasPlayedThisTurn
  {
    var p1 := TurnManager.ResetFlags(t.players);
    var cw := TurnManager.Clockwise(NextAge(t.age));
    TurnManager.PositionOrderKept(t.players, p1, order);
    RotateTurnsHands(p1, order, cw);
    RotateKeepsOrder(p1, order, cw);
    assert OrderedHands(p1, order) == OrderedHands(t.players, order);
  }

  /** With an empty hand, closing the turn only clears the flags. */
  lemma EmptyHandOnlyResets(t: TurnManager.Table, actor: nat, catalogue: seq<Card>,
                            shuffle: seq<Card> -> seq<Card>, order: seq<nat>, asWritten: bool)
    requires actor < |t.players| && IsPositionOrder(t.players, order) && TurnManager.AllPlayed(t.players)
    requires t.players[actor].hand == []
    ensures var r := EndOfTurnSpec(t, actor, catalogue, shuffle, order, asWritten);
      r.Ok? && r.value.age == t.age && r.value.discard == t.discard && |r.value.players| == |t.players|
      && forall k :: 0 <= k < |t.players| ==>
        r.value.players[k] == t.players[k].(hasPlayedThisTurn := false)
  {
  }

  /** handleEndOfTurn with the corrected discard. An exception rolls the game back to its
      state on entry, as the surrounding transaction does. */
  method HandleEndOfTurn(g: Game, actor: nat, catalogue: seq<Card>, shuffle: seq<Card> -> seq<Card>, order: seq<nat>)
    returns (error: Option<JavaException>)
    requires actor < |g.players| && IsPositionOrder(g.players, order)
    modifies g`currentAge, g`players, g`discard
    ensures var r := EndOfTurnSpec(TurnManager.Table(g.status, old(g.currentAge), old(g.players), old(g.discard)),
                                   actor, catalogue, shuffle, order, false);
      if error.None? then r == Ok(TurnManager.Table(g.status, g.currentAge, g.players, g.discard))
      else (r == Throw(error.value) && g.currentAge == old(g.currentAge) && g.players == old(g.players)
            && g.discard == old(g.discard))
  {
    var t := TurnManager.Table(g.status, g.currentAge, g.players, g.discard);
    var remaining := |g.players[actor].hand|;
    if !TurnManager.AllPlayed(g.players) {
      return None;
    }
    TurnManager.ResetTurnFlags(g);
    if remaining == 1 {
      var d := TurnManager.DiscardLastCards(g.players, g.discard);
      if d.Throw? {
        g.players := t.players;
        return Some(d.exception);
      }
      g.players, g.discard := d.value.0, d.value.1;
      g.currentAge := NextAge(g.currentAge);
      if g.currentAge.None? {
        return None;
      }
      error := DealAgeCards(g, catalogue, shuffle);
      if error.Some? {
        g.currentAge, g.players, g.discard := t.age, t.players, t.discard;
      }
    } else if remaining >= 2 {
      g.currentAge := NextAge(g.currentAge);
      TurnManager.PositionOrderKept(t.players, g.players, order);
      RotateHands(g, order, TurnManager.Clockwise(g.currentAge));
      error := None;
    } else {
      error := None;
    }
  }
}
