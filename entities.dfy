/** The persistent records the rules engine reads and writes, as values. A player's
    neighbours are indices into the game's list of player states, so that two seats
    referring to the same neighbour see the same record. */
module Entities {
  import opened Common
  import opened Ressources
  import opened Ages

  /** The card colours the engine refers to. */
  datatype CardType = BROWN | GREY | BLUE | YELLOW | RED | GREEN | VIOLET

  /** The science symbols, in the order of the effect-parameter table 9..12. */
  datatype Science = TABLET | COMPASS | GEAR | MUTABLE

  /** When a pending effect fires. */
  datatype EffectTiming =
    | IMMEDIATE | END_OF_TURN | END_OF_AGE_BEFORE_DISCARD | END_OF_AGE_AFTER_DISCARD
    | END_OF_GAME | DEFERRED

  /** The lifecycle states of a game. */
  datatype GameStatus = WAITING | STARTING | PLAYING | FINISHED | CANCELLED

  datatype Card = Card(
    id: int,
    name: string,
    cardType: CardType,
    age: Age,
    cost: Counts,
    coinCost: Option<int>,
    minPlayerCount: int,
    image: string)

  datatype Effect = Effect(
    effectId: string,
    timing: EffectTiming,
    parameters: Option<string>)

  datatype Wonder = Wonder(
    id: int,
    name: string,
    face: string,
    startingResources: Counts,
    stageCosts: seq<Counts>,
    numberOfStages: int,
    image: string)

  datatype User = User(id: int, username: string, password: string)

  datatype PlayerState = PlayerState(
    id: int,
    gameId: Option<int>,
    userId: int,
    position: int,
    coins: int,
    militaryPoints: int,
    victoryPoints: int,
    wonderName: Option<string>,
    wonderSide: string,
    wonder: Option<Wonder>,
    wonderStage: int,
    playedCards: seq<Card>,
    resources: Counts,
    science: map<Science, int>,
    hasPlayedThisTurn: bool,
    hand: seq<Card>,
    wonderCards: seq<Card>,
    pendingEffects: seq<Effect>,
    leftNeighbor: Option<nat>,
    rightNeighbor: Option<nat>,
    leftBasePrice: int,
    rightBasePrice: int,
    leftAdvancedPrice: int,
    rightAdvancedPrice: int)

  /** Seat i exists and both of its neighbours are seats of the same table. */
  predicate HasNeighbours(players: seq<PlayerState>, i: int)
  {
    0 <= i < |players|
    && players[i].leftNeighbor.Some? && players[i].leftNeighbor.value < |players|
    && players[i].rightNeighbor.Some? && players[i].rightNeighbor.value < |players|
  }

  function LeftOf(players: seq<PlayerState>, i: int): PlayerState
    requires HasNeighbours(players, i)
  {
    players[players[i].leftNeighbor.value]
  }

  function RightOf(players: seq<PlayerState>, i: int): PlayerState
    requires HasNeighbours(players, i)
  {
    players[players[i].rightNeighbor.value]
  }

  /** PlayerStateEntity's field initialisers: 3 coins, no points, side "A", stage 0,
      empty lists and maps, not yet played, no neighbours, trading price 2. */
  function NewPlayerState(id: int, gameId: int, userId: int, position: int): (p: PlayerState)
    ensures p.coins == 3 && p.hand == [] && p.wonderStage == 0 && !p.hasPlayedThisTurn
  {
    PlayerState(id, Some(gameId), userId, position, 3, 0, 0, None, "A", None, 0, [], map[], map[], false,
      [], [], [], None, None, 2, 2, 2, 2)
  }

  /** Number of cards of a colour in a list (the stream count of countCardsByType). */
  function CountOfType(cards: seq<Card>, t: CardType): (n: nat)
    ensures n <= |cards|
  {
    if cards == [] then 0
    else (if cards[0].cardType == t then 1 else 0) + CountOfType(cards[1..], t)
  }

  /** The coins of every seat, in seat order. */
  function CoinsOf(players: seq<PlayerState>): (r: seq<int>)
    ensures |r| == |players|
    ensures forall k :: 0 <= k < |r| ==> r[k] == players[k].coins
  {
    if players == [] then [] else [players[0].coins] + CoinsOf(players[1..])
  }

  /** Sum of all players' coins. */
  function TotalCoins(players: seq<PlayerState>): int
  {
    Sum(CoinsOf(players))
  }

  /** Replacing one entry changes a sum by the difference. */
  lemma {:induction false} SumUpdate(s: seq<int>, k: nat, v: int)
    requires k < |s|
    ensures Sum(s[k := v]) == Sum(s) - s[k] + v
  {
    if k > 0 {
      SumUpdate(s[1..], k - 1, v);
      assert s[k := v][1..] == s[1..][k - 1 := v];
    } else {
      assert s[0 := v][1..] == s[1..];
    }
  }

  /** Replacing one player changes the table total by the difference in their coins. */
  lemma TotalCoinsUpdate(players: seq<PlayerState>, k: nat, p: PlayerState)
    requires k < |players|
    ensures TotalCoins(players[k := p]) == TotalCoins(players) - players[k].coins + p.coins
  {
    assert CoinsOf(players[k := p]) == CoinsOf(players)[k := p.coins];
    SumUpdate(CoinsOf(players), k, p.coins);
  }
}
