/** The two card endpoints of the game page: playing, building with or discarding a card
    of the hand, and taking a card back from the discard pile under a BUILD_FROM_DISCARD
    effect. Player states are the game's list, so the table of the game is the state
    both endpoints change; the end of the turn is handleEndOfTurn. */
module GameStateApi {
  import opened Common
  import opened Ressources
  import opened Entities
  import opened GameEntities
  import opened CardPlay
  import opened WonderBuild
  import opened CardDistribution
  import opened TurnManager
  import WonderDecider

  /** The HTTP statuses the endpoints answer with. */
  datatype HttpStatus = OK | BAD_REQUEST | UNAUTHORIZED | NOT_FOUND

  /** Every seat has both neighbours: the game has been set up. */
  predicate Seated(players: seq<PlayerState>)
  {
    forall k :: 0 <= k < |players| ==> HasNeighbours(players, k)
  }

  /** Two lists of player states with the same seats at the same positions. */
  predicate SamePositions(a: seq<PlayerState>, b: seq<PlayerState>)
  {
    |a| == |b| && forall j :: 0 <= j < |a| ==> a[j].position == b[j].position
  }

  /** The table of the game with that id, none when there is no such game. */
  function TableAt(g: Game?, gameId: int): (t: Option<Table>)
    reads g
    ensures t.Some? <==> g != null && g.id == gameId
  {
    if g != null && g.id == gameId then Some(Table(g.status, g.currentAge, g.players, g.discard)) else None
  }

  /** The objects an endpoint may change: the game, when there is one. */
  function Frame(g: Game?): (s: set<Game>)
  {
    if g == null then {} else {g}
  }

  /** A table the endpoints can work on: every seat has its neighbours and the order
      given for the rotation sorts the seats by position. */
  predicate Workable(t: Option<Table>, order: seq<nat>)
  {
    t.Some? ==> Seated(t.value.players) && IsPositionOrder(t.value.players, order)
  }

  // ---------------------------------------------------------------- seat changes keep positions

  /** Paying, playing, building and discarding change no position. */
  lemma PayCostKeepsPositions(players: seq<PlayerState>, i: int, cost: Counts)
    requires HasNeighbours(players, i)
    ensures SamePositions(players, PayCostSpec(players, i, cost))
  {
    PayCostOnlyCoins(players, i, cost);
  }

  lemma PlayKeepsPositions(players: seq<PlayerState>, i: int, card: Card, effects: map<string, Effect>)
    requires HasNeighbours(players, i) && card.coinCost.Some?
    ensures SamePositions(players, PlayCardSpec(players, i, card, effects))
  {
    if card.coinCost.value <= 0 {
      PayCostKeepsPositions(players, i, card.cost);
    }
  }

  lemma BuildKeepsPositions(players: seq<PlayerState>, i: int, card: Card, effects: map<string, Effect>)
    requires HasNeighbours(players, i) && CanBuildSpec(players, i) == Ok(true)
    ensures SamePositions(players, BuildSpec(players, i, card, effects))
  {
    var cost := players[i].wonder.value.stageCosts[players[i].wonderStage];
    PayCostKeepsPositions(players, i, cost);
  }

  /** A sorted order of the seats stays one when no position changes. */
  lemma OrderKept(a: seq<PlayerState>, b: seq<PlayerState>, order: seq<nat>)
    requires IsPositionOrder(a, order) && SamePositions(a, b)
    ensures IsPositionOrder(b, order)
  {
    PositionOrderKept(a, b, order);
  }

  /** The seat marked as having played this turn. */
  function MarkPlayed(t: Table, k: nat): (r: Table)
    requires k < |t.players|
  {
    t.(players := t.players[k := t.players[k].(hasPlayedThisTurn := true)])
  }

  // ---------------------------------------------------------------- cardAction

  /** The body of a cardAction reply: its status, the success flag and the message. */
  datatype Reply = Reply(status: HttpStatus, success: bool, message: Option<string>)

  const NotAuthenticated := Reply(UNAUTHORIZED, false, Some("User not authenticated"))

  /** The actions cardAction accepts. */
  const CardActions: seq<string> := ["play", "build", "discard"]

  /** The first card of the hand with that image. The image is compared with
      cardImage.equals, so a missing image throws as soon as the hand has a card. */
  function CardByImage(hand: seq<Card>, image: Option<string>): (r: Result<Option<Card>>)
    ensures r.Throw? <==> hand != [] && image.None?
    ensures r.Ok? && r.value.Some? ==> r.value.value in hand && r.value.value.image == image.value
    ensures r == Ok(None) <==> hand == [] || (image.Some? && forall c :: c in hand ==> c.image != image.value)
  {
    if hand == [] then Ok(None)
    else if image.None? then Throw(NullPointer)
    else if hand[0].image == image.value then Ok(Some(hand[0]))
    else CardByImage(hand[1..], image)
  }

  /** The action itself on the table: play (a card without a coin cost throws when it is
      unboxed), build (the check may throw), or discard, which always succeeds. The flag
      says whether it succeeded; a refusal leaves the table as it was. */
  function Perform(t: Table, k: nat, action: string, card: Card, effects: map<string, Effect>): (r: Result<(bool, Table)>)
    requires Seated(t.players) && k < |t.players|
  {
    if action == "play" then
      if card.coinCost.None? then Throw(NullPointer)
      else if CanPlaySpec(t.players, k, card) then Ok((true, t.(players := PlayCardSpec(t.players, k, card, effects))))
      else Ok((false, t))
    else if action == "build" then
      match CanBuildSpec(t.players, k)
      case Throw(e) => Throw(e)
      case Ok(ok) =>
        if ok then Ok((true, t.(players := BuildSpec(t.players, k, card, effects)))) else Ok((false, t))
    else
      Ok((true, t.(players := DiscardSpec(t.players, k, card), discard := t.discard + [card])))
  }

  /** A refusal leaves the table as it was, and an action keeps every seat's position. */
  lemma PerformKeepsPositions(t: Table, k: nat, action: string, card: Card, effects: map<string, Effect>)
    requires Seated(t.players) && k < |t.players|
    ensures var r := Perform(t, k, action, card, effects);
      r.Ok? ==> SamePositions(t.players, r.value.1.players) && (!r.value.0 ==> r.value.1 == t)
  {
    var r := Perform(t, k, action, card, effects);
    if r.Ok? && r.value.0 {
      if action == "play" {
        PlayKeepsPositions(t.players, k, card, effects);
      } else if action == "build" {
        BuildKeepsPositions(t.players, k, card, effects);
      }
    }
  }

  /** The outcome of the guards of an endpoint: an answer, or the caller's seat and the
      item the request names. */
  datatype Admission<R, X> = Answer(reply: Result<R>) | Admitted(k: nat, item: X)

  /** The guards of cardAction, in source order: login, the action (List.contains of a
      null action throws), the user, the seat, the card of the hand with that image and
      the played flag. */
  function AdmitCardAction(authName: Option<string>, users: seq<User>, action: Option<string>, image: Option<string>,
                           t: Option<Table>): (a: Admission<Reply, Card>)
    ensures a.Admitted? ==>
      authName.Some? && action.Some? && action.value in CardActions && image.Some? && t.Some?
      && WonderDecider.Caller(authName, users).Some?
      && WonderDecider.SeatOf(t.value.players, WonderDecider.Caller(authName, users).value.id) == Some(a.k)
      && a.item in t.value.players[a.k].hand && a.item.image == image.value
      && !t.value.players[a.k].hasPlayedThisTurn
    ensures authName.Some? && action.Some? && action.value !in CardActions ==>
      a == Answer(Ok(Reply(BAD_REQUEST, false, Some("Invalid action type"))))
    ensures a.Answer? && a.reply.Ok? ==> !a.reply.value.success
  {
    if authName.None? then Answer(Ok(NotAuthenticated))
    else if action.None? then Answer(Throw(NullPointer))
    else if action.value !in CardActions then Answer(Ok(Reply(BAD_REQUEST, false, Some("Invalid action type"))))
    else match WonderDecider.Caller(authName, users)
      case None => Answer(Ok(NotAuthenticated))
      case Some(user) =>
        var players := if t.None? then [] else t.value.players;
        match WonderDecider.SeatOf(players, user.id)
        case None => Answer(Ok(Reply(NOT_FOUND, false, Some("Player state not found"))))
        case Some(k) =>
          match CardByImage(players[k].hand, image)
          case Throw(e) => Answer(Throw(e))
          case Ok(found) =>
            if found.None? then Answer(Ok(Reply(BAD_REQUEST, false, Some("Card data not sent correctly or card not in hand"))))
            else if players[k].hasPlayedThisTurn then Answer(Ok(Reply(BAD_REQUEST, false, Some("Player has already played this turn"))))
            else Admitted(k, found.value)
  }

  /** The end of a successful action: the seat marked as played, then the end of the
      turn, whose exception leaves the marked table as handleEndOfTurn rolls back. */
  function FinishAct(t1: Table, k: nat, catalogue: seq<Card>, shuffle: seq<Card> -> seq<Card>, order: seq<nat>): (r: (Result<Reply>, Table))
    requires k < |t1.players| && IsPositionOrder(MarkPlayed(t1, k).players, order)
  {
    var t2 := MarkPlayed(t1, k);
    match EndOfTurnSpec(t2, k, catalogue, shuffle, order)
    case Throw(e) => (Throw(e), t2)
    case Ok(t3) => (Ok(Reply(OK, true, None)), t3)
  }

  /** The admitted action: the action on the table, then, on success, the end of the
      turn with the seat marked as played. */
  function ActSpec(t: Table, k: nat, action: string, card: Card, effects: map<string, Effect>, catalogue: seq<Card>,
                   shuffle: seq<Card> -> seq<Card>, order: seq<nat>): (r: (Result<Reply>, Table))
    requires Seated(t.players) && k < |t.players| && IsPositionOrder(t.players, order)
  {
    match Perform(t, k, action, card, effects)
    case Throw(e) => (Throw(e), t)
    case Ok((success, t1)) =>
      if !success then (Ok(Reply(OK, false, None)), t1)
      else
        PerformKeepsPositions(t, k, action, card, effects);
        OrderKept(t.players, MarkPlayed(t1, k).players, order);
        FinishAct(t1, k, catalogue, shuffle, order)
  }

  /** ActSpec by the outcome of the action: an exception or a refusal leaves the table,
      a success goes on to the end of the turn. */
  lemma ActSpecByOutcome(t: Table, k: nat, action: string, card: Card, effects: map<string, Effect>, catalogue: seq<Card>,
                         shuffle: seq<Card> -> seq<Card>, order: seq<nat>)
    requires Seated(t.players) && k < |t.players| && IsPositionOrder(t.players, order)
    ensures var p := Perform(t, k, action, card, effects);
      var r := ActSpec(t, k, action, card, effects, catalogue, shuffle, order);
      (p.Throw? ==> r == (Throw(p.exception), t))
      && (p.Ok? && !p.value.0 ==> r == (Ok(Reply(OK, false, None)), t))
      && (p.Ok? && p.value.0 ==>
            k < |p.value.1.players| && IsPositionOrder(MarkPlayed(p.value.1, k).players, order) && r == FinishAct(p.value.1, k, catalogue, shuffle, order))
  {
    PerformKeepsPositions(t, k, action, card, effects);
    var p := Perform(t, k, action, card, effects);
    if p.Ok? && p.value.0 {
      OrderKept(t.players, MarkPlayed(p.value.1, k).players, order);
    }
  }

  /** cardAction: the reply and the game's table afterwards. */
  function CardActionSpec(authName: Option<string>, users: seq<User>, action: Option<string>, image: Option<string>,
                          t: Option<Table>, effects: map<string, Effect>, catalogue: seq<Card>,
                          shuffle: seq<Card> -> seq<Card>, order: seq<nat>): (r: (Result<Reply>, Option<Table>))
    requires Workable(t, order)
  {
    match AdmitCardAction(authName, users, action, image, t)
    case Answer(reply) => (reply, t)
    case Admitted(k, card) =>
      var (reply, after) := ActSpec(t.value, k, action.value, card, effects, catalogue, shuffle, order);
      (reply, Some(after))
  }

  /** An admitted action that does not succeed leaves the table as it was; a success
      is the action on the table followed by the end of the turn with the seat marked as
      played; a discard never fails. */
  lemma ActOutcomes(t: Table, k: nat, action: string, card: Card, effects: map<string, Effect>, catalogue: seq<Card>,
                    shuffle: seq<Card> -> seq<Card>, order: seq<nat>)
    requires Seated(t.players) && k < |t.players| && IsPositionOrder(t.players, order)
    ensures var (r, after) := ActSpec(t, k, action, card, effects, catalogue, shuffle, order);
      var done := Perform(t, k, action, card, effects);
      (r.Ok? && !r.value.success ==> after == t)
      && (r.Ok? && r.value.success ==>
            done.Ok? && done.value.0
            && IsPositionOrder(MarkPlayed(done.value.1, k).players, order)
            && EndOfTurnSpec(MarkPlayed(done.value.1, k), k, catalogue, shuffle, order) == Ok(after))
      && (action != "play" && action != "build" ==> r != Ok(Reply(OK, false, None)))
  {
    PerformKeepsPositions(t, k, action, card, effects);
    var done := Perform(t, k, action, card, effects);
    if done.Ok? && done.value.0 {
      OrderKept(t.players, MarkPlayed(done.value.1, k).players, order);
    }
  }

  /** cardAction refuses, and changes nothing, for an action outside play/build/discard,
      a card not in the hand and a player who has already played: every reply that is
      not a success leaves the table as it was. A success comes only from an admitted
      request whose action succeeded. */
  lemma CardActionOutcomes(authName: Option<string>, users: seq<User>, action: Option<string>, image: Option<string>,
                           t: Option<Table>, effects: map<string, Effect>, catalogue: seq<Card>,
                           shuffle: seq<Card> -> seq<Card>, order: seq<nat>)
    requires Workable(t, order)
    ensures var (r, after) := CardActionSpec(authName, users, action, image, t, effects, catalogue, shuffle, order);
      (r.Ok? && !r.value.success ==> after == t)
      && (r.Ok? && r.value.success ==>
            var a := AdmitCardAction(authName, users, action, image, t);
            a.Admitted? && ActSpec(t.value, a.k, action.value, a.item, effects, catalogue, shuffle, order).0 == r)
  {
    var a := AdmitCardAction(authName, users, action, image, t);
    if a.Admitted? {
      ActOutcomes(t.value, a.k, action.value, a.item, effects, catalogue, shuffle, order);
    }
  }

  /** The action part of cardAction on the game. */
  method PerformAction(g: Game, k: nat, action: string, card: Card, effects: map<string, Effect>)
    returns (r: Result<bool>)
    requires Seated(g.players) && k < |g.players|
    modifies g`players, g`discard
    ensures var p := Perform(Table(g.status, g.currentAge, old(g.players), old(g.discard)), k, action, card, effects);
      match p
      case Throw(e) => r == Throw(e) && g.players == old(g.players) && g.discard == old(g.discard)
      case Ok((success, t1)) => r == Ok(success) && Table(g.status, g.currentAge, g.players, g.discard) == t1
  {
    if action == "play" {
      if card.coinCost.None? {
        return Throw(NullPointer);
      }
      var played := PlayCard(g, k, card, effects);
      r := Ok(played);
    } else if action == "build" {
      r := BuildWonderWithCard(g, k, card, effects);
    } else {
      DiscardCard(g, k, card);
      r := Ok(true);
    }
  }

  /** The seat marked as played and handleEndOfTurn, after a successful action; t1 is
      the game's table on entry. */
  method FinishTurn(g: Game, ghost t1: Table, k: nat, catalogue: seq<Card>, shuffle: seq<Card> -> seq<Card>, order: seq<nat>)
    returns (r: Result<Reply>)
    requires Table(g.status, g.currentAge, g.players, g.discard) == t1
    requires k < |t1.players| && IsPositionOrder(MarkPlayed(t1, k).players, order)
    modifies g`status, g`currentAge, g`players, g`discard
    ensures (r, Table(g.status, g.currentAge, g.players, g.discard)) == FinishAct(t1, k, catalogue, shuffle, order)
  {
    g.players := g.players[k := g.players[k].(hasPlayedThisTurn := true)];
    var error := HandleEndOfTurn(g, k, catalogue, shuffle, order);
    if error.Some? {
      return Throw(error.value);
    }
    r := Ok(Reply(OK, true, None));
  }

  /** The admitted part of cardAction on the game: the action, and on success the flag
      and handleEndOfTurn. */
  method Act(g: Game, k: nat, action: string, card: Card, effects: map<string, Effect>, catalogue: seq<Card>,
             shuffle: seq<Card> -> seq<Card>, order: seq<nat>) returns (r: Result<Reply>)
    requires Seated(g.players) && k < |g.players| && IsPositionOrder(g.players, order)
    modifies g`status, g`currentAge, g`players, g`discard
    ensures (r, Table(g.status, g.currentAge, g.players, g.discard))
            == ActSpec(old(Table(g.status, g.currentAge, g.players, g.discard)), k, action, card, effects,
                       catalogue, shuffle, order)
  {
    ghost var t := Table(g.status, g.currentAge, g.players, g.discard);
    ActSpecByOutcome(t, k, action, card, effects, catalogue, shuffle, order);
    ghost var p := Perform(t, k, action, card, effects);
    var success := PerformAction(g, k, action, card, effects);
    if success.Throw? {
      return Throw(success.exception);
    }
    if !success.value {
      return Ok(Reply(OK, false, None));
    }
    r := FinishTurn(g, p.value.1, k, catalogue, shuffle, order);
  }

  /** cardAction over the game's table. */
  method CardAction(gameId: int, authName: Option<string>, users: seq<User>, action: Option<string>,
                    image: Option<string>, game: Game?, effects: map<string, Effect>, catalogue: seq<Card>,
                    shuffle: seq<Card> -> seq<Card>, order: seq<nat>) returns (r: Result<Reply>)
    requires Workable(TableAt(game, gameId), order)
    modifies Frame(game)`status, Frame(game)`currentAge, Frame(game)`players, Frame(game)`discard
    ensures (r, TableAt(game, gameId)) == CardActionSpec(authName, users, action, image, old(TableAt(game, gameId)),
                                                         effects, catalogue, shuffle, order)
  {
    var admission := AdmitCardAction(authName, users, action, image, TableAt(game, gameId));
    if admission.Answer? {
      return admission.reply;
    }
    r := Act(game, admission.k, action.value, admission.item, effects, catalogue, shuffle, order);
  }

  // ---------------------------------------------------------------- selectDiscardCard

  /** The replies of selectDiscardCard: an empty body with a status, a 400 with an
      error message, or the success message with the card's name and the action. */
  datatype SelectReply =
    | Denied(status: HttpStatus)
    | Refused(error: string)
    | Done(success: string, card: string, action: string)

  /** Index of the first card of the pile with that id. */
  function CardIndexById(pile: seq<Card>, cardId: int): (i: Option<nat>)
    ensures i.Some? ==> i.value < |pile| && pile[i.value].id == cardId
                        && forall j :: 0 <= j < i.value ==> pile[j].id != cardId
    ensures i.None? <==> forall j :: 0 <= j < |pile| ==> pile[j].id != cardId
  {
    if pile == [] then None
    else if pile[0].id == cardId then Some(0)
    else match CardIndexById(pile[1..], cardId)
      case None => None
      case Some(j) => Some(j + 1)
  }

  /** playCard with the cost ignored: the card goes to the played cards (a copy in the
      hand, if any, leaves it) and its effect is queued. */
  function FreePlaySpec(players: seq<PlayerState>, i: nat, card: Card, effects: map<string, Effect>): (r: seq<PlayerState>)
    requires i < |players|
    ensures |r| == |players|
  {
    var me := players[i];
    players[i := WithCardEffect(me.(hand := RemoveFirst(me.hand, card), playedCards := me.playedCards + [card]), card, effects)]
  }

  /** The pending effects without those of that id (removeIf). */
  function DropEffect(effects: seq<Effect>, effectId: string): (r: seq<Effect>)
  {
    if effects == [] then []
    else (if effects[0].effectId == effectId then [] else [effects[0]]) + DropEffect(effects[1..], effectId)
  }

  /** removeIf keeps exactly the effects of other ids, as often as they were there. */
  lemma {:induction false} DropEffectExact(effects: seq<Effect>, effectId: string)
    ensures forall e :: e in DropEffect(effects, effectId) ==> e.effectId != effectId
    ensures forall e: Effect :: e.effectId != effectId ==> multiset(DropEffect(effects, effectId))[e] == multiset(effects)[e]
  {
    if effects != [] {
      DropEffectExact(effects[1..], effectId);
      assert effects == [effects[0]] + effects[1..];
    }
  }

  /** The effect gone and the game playing again: the state handed to the end of the
      turn after a successful take from the discard pile. */
  function Resume(t: Table, k: nat): (r: Table)
    requires k < |t.players|
  {
    t.(players := t.players[k := t.players[k].(pendingEffects := DropEffect(t.players[k].pendingEffects, BuildFromDiscard))],
       status := PLAYING)
  }

  /** The chosen action on the card taken from the pile: a free play, which always
      succeeds, or a build, which may be refused or throw. */
  function TakeAction(t: Table, k: nat, action: string, card: Card, effects: map<string, Effect>): (r: Result<(bool, Table)>)
    requires Seated(t.players) && k < |t.players|
  {
    if action == "play" then Ok((true, t.(players := FreePlaySpec(t.players, k, card, effects))))
    else match CanBuildSpec(t.players, k)
      case Throw(e) => Throw(e)
      case Ok(ok) =>
        if ok then Ok((true, t.(players := BuildSpec(t.players, k, card, effects)))) else Ok((false, t))
  }

  /** The guards of selectDiscardCard, in source order: login, the action, the game,
      the user, the seat and the first card of the pile with that id. */
  function AdmitSelect(authName: Option<string>, users: seq<User>, action: string, cardId: int,
                       t: Option<Table>): (a: Admission<SelectReply, nat>)
    ensures a.Admitted? ==>
      authName.Some? && (action == "play" || action == "build") && t.Some?
      && WonderDecider.Caller(authName, users).Some?
      && WonderDecider.SeatOf(t.value.players, WonderDecider.Caller(authName, users).value.id) == Some(a.k)
      && CardIndexById(t.value.discard, cardId) == Some(a.item)
    ensures authName.Some? && action != "play" && action != "build" ==>
      a == Answer(Ok(Refused("Invalid action. Must be 'play' or 'build'")))
    ensures a == Answer(Ok(Refused("Card not found in discard pile"))) ==>
      t.Some? && forall j :: 0 <= j < |t.value.discard| ==> t.value.discard[j].id != cardId
    ensures a.Answer? && a.reply.Ok? ==> !a.reply.value.Done?
  {
    if authName.None? then Answer(Ok(Denied(UNAUTHORIZED)))
    else if action != "play" && action != "build" then Answer(Ok(Refused("Invalid action. Must be 'play' or 'build'")))
    else if t.None? then Answer(Ok(Denied(NOT_FOUND)))
    else match WonderDecider.Caller(authName, users)
      case None => Answer(Ok(Denied(UNAUTHORIZED)))
      case Some(user) =>
        match WonderDecider.SeatOf(t.value.players, user.id)
        case None => Answer(Ok(Denied(NOT_FOUND)))
        case Some(k) =>
          match CardIndexById(t.value.discard, cardId)
          case None => Answer(Ok(Refused("Card not found in discard pile")))
          case Some(idx) => Admitted(k, idx)
  }

  /** The admitted part of selectDiscardCard: the card leaves the pile, the action runs
      on it; a refusal puts it back at the end of the pile, an exception leaves it out; a
      success drops the seat's BUILD_FROM_DISCARD effects, sets the game to PLAYING and
      ends the turn. */
  function TakeSpec(t: Table, k: nat, idx: nat, action: string, effects: map<string, Effect>, catalogue: seq<Card>,
                    shuffle: seq<Card> -> seq<Card>, order: seq<nat>): (r: (Result<SelectReply>, Table))
    requires Seated(t.players) && k < |t.players| && IsPositionOrder(t.players, order) && idx < |t.discard|
  {
    var card := t.discard[idx];
    var t1 := t.(discard := RemoveAt(t.discard, idx));
    match TakeAction(t1, k, action, card, effects)
    case Throw(e) => (Throw(e), t1)
    case Ok((success, t2)) =>
      if !success then (Ok(Refused("Failed to " + action + " the selected card")), t1.(discard := t1.discard + [card]))
      else
        TakeActionKeepsPositions(t1, k, action, card, effects);
        OrderKept(t.players, t2.players, order);
        FinishSpec(t2, k, action, card, catalogue, shuffle, order)
  }

  /** After a successful action on the taken card: the seat's BUILD_FROM_DISCARD effects
      go, the game plays again and the turn ends. */
  function FinishSpec(t2: Table, k: nat, action: string, card: Card, catalogue: seq<Card>,
                      shuffle: seq<Card> -> seq<Card>, order: seq<nat>): (r: (Result<SelectReply>, Table))
    requires k < |t2.players| && IsPositionOrder(t2.players, order)
  {
    var t3 := Resume(t2, k);
    OrderKept(t2.players, t3.players, order);
    match EndOfTurnSpec(t3, k, catalogue, shuffle, order)
    case Throw(e) => (Throw(e), t3)
    case Ok(t4) =>
      var done := if action == "play" then "played" else "used to build wonder";
      (Ok(Done("Card " + done + " successfully from discard", card.name, action)), t4)
  }

  /** Taking the card at idx out of a pile and adding it back keeps the pile's cards. */
  lemma RemoveAtMultiset(d: seq<Card>, idx: nat)
    requires idx < |d|
    ensures multiset(RemoveAt(d, idx)) + multiset{d[idx]} == multiset(d)
  {
    assert d == d[..idx] + [d[idx]] + d[idx + 1..];
  }

  /** selectDiscardCard: the reply and the game's table afterwards. */
  function SelectDiscardSpec(authName: Option<string>, users: seq<User>, action: string, cardId: int,
                             t: Option<Table>, effects: map<string, Effect>, catalogue: seq<Card>,
                             shuffle: seq<Card> -> seq<Card>, order: seq<nat>): (r: (Result<SelectReply>, Option<Table>))
    requires Workable(t, order)
  {
    match AdmitSelect(authName, users, action, cardId, t)
    case Answer(reply) => (reply, t)
    case Admitted(k, idx) =>
      var (reply, after) := TakeSpec(t.value, k, idx, action, effects, catalogue, shuffle, order);
      (reply, Some(after))
  }

  /** The actions on the taken card keep every position and the pile. */
  lemma TakeActionKeepsPositions(t: Table, k: nat, action: string, card: Card, effects: map<string, Effect>)
    requires Seated(t.players) && k < |t.players|
    ensures var r := TakeAction(t, k, action, card, effects);
      r.Ok? ==> SamePositions(t.players, r.value.1.players) && r.value.1.discard == t.discard && (!r.value.0 ==> r.value.1 == t)
  {
    var r := TakeAction(t, k, action, card, effects);
    if r.Ok? && r.value.0 && action != "play" {
      BuildKeepsPositions(t.players, k, card, effects);
    }
  }

  /** A refused action puts the card back at the end of the pile, not at its place: the
      pile keeps its cards and ends with the taken one, and the seats are unchanged. A
      free play is never refused. */
  lemma TakeRefused(t: Table, k: nat, idx: nat, action: string, effects: map<string, Effect>, catalogue: seq<Card>,
                    shuffle: seq<Card> -> seq<Card>, order: seq<nat>)
    requires Seated(t.players) && k < |t.players| && IsPositionOrder(t.players, order) && idx < |t.discard|
    ensures var (r, after) := TakeSpec(t, k, idx, action, effects, catalogue, shuffle, order);
      r == Ok(Refused("Failed to " + action + " the selected card")) ==>
        action != "play"
        && after == t.(discard := RemoveAt(t.discard, idx) + [t.discard[idx]])
        && multiset(after.discard) == multiset(t.discard)
        && after.discard[|after.discard| - 1] == t.discard[idx]
  {
    var (r, after) := TakeSpec(t, k, idx, action, effects, catalogue, shuffle, order);
    var d := t.discard;
    var card := d[idx];
    var t1 := t.(discard := RemoveAt(d, idx));
    TakeActionKeepsPositions(t1, k, action, card, effects);
    if r == Ok(Refused("Failed to " + action + " the selected card")) {
      RemoveAtMultiset(d, idx);
    }
  }

  /** The end of a successful take: the seat has no BUILD_FROM_DISCARD effect left, the
      game is playing again, the pile is as the action left it, and the table afterwards
      is the end of the turn from there. */
  lemma FinishOutcome(t2: Table, k: nat, action: string, card: Card, catalogue: seq<Card>,
                      shuffle: seq<Card> -> seq<Card>, order: seq<nat>)
    requires k < |t2.players| && IsPositionOrder(t2.players, order)
    ensures var (r, after) := FinishSpec(t2, k, action, card, catalogue, shuffle, order);
      var t3 := Resume(t2, k);
      !HasPending(t3.players[k], BuildFromDiscard) && t3.status == PLAYING && t3.discard == t2.discard
      && IsPositionOrder(t3.players, order)
      && (r.Ok? ==> EndOfTurnSpec(t3, k, catalogue, shuffle, order) == Ok(after)
                    && r.value == Done("Card " + (if action == "play" then "played" else "used to build wonder")
                                       + " successfully from discard", card.name, action))
  {
    var t3 := Resume(t2, k);
    OrderKept(t2.players, t3.players, order);
    DropEffectExact(t2.players[k].pendingEffects, BuildFromDiscard);
  }

  /** A card taken successfully has left the pile, the seat has no BUILD_FROM_DISCARD
      effect left, the game is playing again, and the table afterwards is the end of the
      turn from there. */
  lemma TakeSucceeded(t: Table, k: nat, idx: nat, action: string, effects: map<string, Effect>, catalogue: seq<Card>,
                      shuffle: seq<Card> -> seq<Card>, order: seq<nat>)
    requires Seated(t.players) && k < |t.players| && IsPositionOrder(t.players, order) && idx < |t.discard|
    ensures var (r, after) := TakeSpec(t, k, idx, action, effects, catalogue, shuffle, order);
      var card := t.discard[idx];
      var taken := TakeAction(t.(discard := RemoveAt(t.discard, idx)), k, action, card, effects);
      r.Ok? && r.value.Done? ==>
        taken.Ok? && taken.value.0
        && var t3 := Resume(taken.value.1, k);
           multiset(t3.discard) + multiset{card} == multiset(t.discard)
           && !HasPending(t3.players[k], BuildFromDiscard)
           && t3.status == PLAYING
           && IsPositionOrder(t3.players, order)
           && EndOfTurnSpec(t3, k, catalogue, shuffle, order) == Ok(after)
           && r.value == Done("Card " + (if action == "play" then "played" else "used to build wonder")
                              + " successfully from discard", card.name, action)
  {
    var d := t.discard;
    var card := d[idx];
    var t1 := t.(discard := RemoveAt(d, idx));
    TakeActionKeepsPositions(t1, k, action, card, effects);
    var taken := TakeAction(t1, k, action, card, effects);
    if taken.Ok? && taken.value.0 {
      OrderKept(t.players, taken.value.1.players, order);
      FinishOutcome(taken.value.1, k, action, card, catalogue, shuffle, order);
      RemoveAtMultiset(d, idx);
    }
  }

  /** The action of selectDiscardCard on the game. */
  method TakeFromDiscard(g: Game, k: nat, action: string, card: Card, effects: map<string, Effect>)
    returns (r: Result<bool>)
    requires Seated(g.players) && k < |g.players|
    modifies g`players
    ensures var p := TakeAction(Table(g.status, g.currentAge, old(g.players), g.discard), k, action, card, effects);
      match p
      case Throw(e) => r == Throw(e) && g.players == old(g.players)
      case Ok((success, t1)) => r == Ok(success) && Table(g.status, g.currentAge, g.players, g.discard) == t1
  {
    if action == "play" {
      var me := g.players[k];
      me := me.(hand := RemoveFirst(me.hand, card), playedCards := me.playedCards + [card]);
      me := WithCardEffect(me, card, effects);
      g.players := g.players[k := me];
      r := Ok(true);
    } else {
      r := BuildWonderWithCard(g, k, card, effects);
    }
  }

  /** The admitted part of selectDiscardCard on the game. */
  method Take(g: Game, k: nat, idx: nat, action: string, effects: map<string, Effect>, catalogue: seq<Card>,
              shuffle: seq<Card> -> seq<Card>, order: seq<nat>) returns (r: Result<SelectReply>)
    requires Seated(g.players) && k < |g.players| && IsPositionOrder(g.players, order) && idx < |g.discard|
    modifies g`status, g`currentAge, g`players, g`discard
    ensures (r, Table(g.status, g.currentAge, g.players, g.discard))
            == TakeSpec(old(Table(g.status, g.currentAge, g.players, g.discard)), k, idx, action, effects,
                        catalogue, shuffle, order)
  {
    ghost var t := Table(g.status, g.currentAge, g.players, g.discard);
    var card := g.discard[idx];
    g.discard := RemoveAt(g.discard, idx);
    ghost var t1 := Table(g.status, g.currentAge, g.players, g.discard);
    ghost var p := TakeAction(t1, k, action, card, effects);
    var success := TakeFromDiscard(g, k, action, card, effects);
    if success.Throw? {
      return Throw(success.exception);
    }
    if !success.value {
      g.discard := g.discard + [card];
      return Ok(Refused("Failed to " + action + " the selected card"));
    }
    TakeActionKeepsPositions(t1, k, action, card, effects);
    OrderKept(t.players, g.players, order);
    r := Finish(g, p.value.1, k, action, card, catalogue, shuffle, order);
  }

  /** The end of a successful selectDiscardCard on the game; t2 is the game's table on
      entry. */
  method Finish(g: Game, ghost t2: Table, k: nat, action: string, card: Card, catalogue: seq<Card>,
                shuffle: seq<Card> -> seq<Card>, order: seq<nat>) returns (r: Result<SelectReply>)
    requires Table(g.status, g.currentAge, g.players, g.discard) == t2
    requires k < |t2.players| && IsPositionOrder(t2.players, order)
    modifies g`status, g`currentAge, g`players, g`discard
    ensures (r, Table(g.status, g.currentAge, g.players, g.discard)) == FinishSpec(t2, k, action, card, catalogue, shuffle, order)
  {
    g.players := g.players[k := g.players[k].(pendingEffects := DropEffect(g.players[k].pendingEffects, BuildFromDiscard))];
    g.status := PLAYING;
    OrderKept(t2.players, g.players, order);
    var error := HandleEndOfTurn(g, k, catalogue, shuffle, order);
    if error.Some? {
      return Throw(error.value);
    }
    var done := if action == "play" then "played" else "used to build wonder";
    r := Ok(Done("Card " + done + " successfully from discard", card.name, action));
  }

  /** selectDiscardCard over the game's table. */
  method SelectDiscardCard(gameId: int, cardId: int, action: string, authName: Option<string>, users: seq<User>,
                           game: Game?, effects: map<string, Effect>, catalogue: seq<Card>,
                           shuffle: seq<Card> -> seq<Card>, order: seq<nat>) returns (r: Result<SelectReply>)
    requires Workable(TableAt(game, gameId), order)
    modifies Frame(game)`status, Frame(game)`currentAge, Frame(game)`players, Frame(game)`discard
    ensures (r, TableAt(game, gameId)) == SelectDiscardSpec(authName, users, action, cardId, old(TableAt(game, gameId)),
                                                            effects, catalogue, shuffle, order)
  {
    var admission := AdmitSelect(authName, users, action, cardId, TableAt(game, gameId));
    if admission.Answer? {
      return admission.reply;
    }
    r := Take(game, admission.k, admission.item, action, effects, catalogue, shuffle, order);
  }
}
