/** What the game page reads: the requesting player's own state, the discard pile and
    one entry for each other player of the game. Player states are the game's list and
    a neighbour is the index of a seat of that list. */
module GameStateView {
  import opened Common
  import opened JavaText
  import opened Ages
  import opened Entities
  import opened TurnManager
  import WonderDecider

  // ---------------------------------------------------------------- one player's state

  /** getPlayerState as a record. The hand and the available actions are optional so
      that a public state can leave them out. */
  datatype PlayerView = PlayerView(
    hasPlayedThisTurn: bool,
    coins: int,
    hand: Option<seq<string>>,
    playedCards: seq<string>,
    wonder: Option<string>,
    cardBacks: seq<string>,
    availableActions: Option<seq<string>>)

  /** The images of the cards, in list order. */
  function Images(cards: seq<Card>): (r: seq<string>)
  {
    seq(|cards|, k requires 0 <= k < |cards| => cards[k].image)
  }

  /** The back of a card built into a wonder: its age in lower case with ".png". */
  function CardBack(a: Age): (back: string)
  {
    ToLower(Name(a)) + ".png"
  }

  /** The age a card-back file name stands for, if any. */
  function BackAge(back: string): (a: Option<Age>)
  {
    if back == "age_i.png" then Some(AGE_I)
    else if back == "age_ii.png" then Some(AGE_II)
    else if back == "age_iii.png" then Some(AGE_III)
    else None
  }

  /** A card back names its age and no other: the back file of an age reads back as it. */
  lemma CardBackRoundTrip(a: Age)
    ensures BackAge(CardBack(a)) == Some(a)
  {
    match a
    case AGE_I => assert ToLower("AGE_I") == "age_i";
    case AGE_II => assert ToLower("AGE_II") == "age_ii";
    case AGE_III => assert ToLower("AGE_III") == "age_iii";
  }

  /** The card backs of a player, in the order of the wonder cards. */
  function CardBacks(p: PlayerState): (backs: seq<string>)
  {
    seq(|p.wonderCards|, k requires 0 <= k < |p.wonderCards| => CardBack(p.wonderCards[k].age))
  }

  /** One back per wonder card, in the same order, each naming that card's age. */
  lemma CardBacksFollowWonderCards(p: PlayerState)
    ensures |CardBacks(p)| == |p.wonderCards|
    ensures forall k :: 0 <= k < |p.wonderCards| ==> BackAge(CardBacks(p)[k]) == Some(p.wonderCards[k].age)
  {
    forall k | 0 <= k < |p.wonderCards|
      ensures BackAge(CardBacks(p)[k]) == Some(p.wonderCards[k].age)
    {
      CardBackRoundTrip(p.wonderCards[k].age);
    }
  }

  /** The actions the player may take now. */
  function AvailableActions(p: PlayerState): (actions: seq<string>)
  {
    (if !p.hasPlayedThisTurn then ["play", "build", "discard"] else [])
    + (if HasPending(p, BuildFromDiscard) then ["build_from_discard"] else [])
  }

  /** play, build and discard are offered exactly when the player has not played this
      turn, build_from_discard exactly when such an effect is pending; nothing else is
      offered and nothing twice. */
  lemma AvailableActionsIff(p: PlayerState)
    ensures var r := AvailableActions(p);
      ("play" in r <==> !p.hasPlayedThisTurn)
      && ("build" in r <==> !p.hasPlayedThisTurn)
      && ("discard" in r <==> !p.hasPlayedThisTurn)
      && ("build_from_discard" in r <==> HasPending(p, BuildFromDiscard))
      && (forall a :: a in r ==> a in ["play", "build", "discard", "build_from_discard"])
      && (forall i, j :: 0 <= i < j < |r| ==> r[i] != r[j])
  {
  }

  /** getPlayerState: the full state of a player. */
  function ViewOf(p: PlayerState): (v: PlayerView)
  {
    PlayerView(p.hasPlayedThisTurn, p.coins, Some(Images(p.hand)), Images(p.playedCards),
               if p.wonder.Some? then Some(p.wonder.value.image) else None,
               CardBacks(p), Some(AvailableActions(p)))
  }

  /** The public state of another player: the full state without hand and actions. */
  function PublicView(p: PlayerState): (v: PlayerView)
  {
    ViewOf(p).(hand := None, availableActions := None)
  }

  // ---------------------------------------------------------------- the other players

  /** One entry of the players list. */
  datatype OtherView = OtherView(id: string, name: string, state: PlayerView, isNeighbor: bool)

  /** Every neighbour reference points at a seat of the same game. */
  predicate NeighboursInRange(players: seq<PlayerState>)
  {
    forall k :: 0 <= k < |players| ==>
      (players[k].leftNeighbor.Some? ==> players[k].leftNeighbor.value < |players|)
      && (players[k].rightNeighbor.Some? ==> players[k].rightNeighbor.value < |players|)
  }

  /** The user name of a user id (ps.getUser().getUsername()); a missing user is a null. */
  function UserName(users: seq<User>, userId: int): (name: Option<string>)
    ensures name.Some? ==> exists u :: u in users && u.id == userId && u.username == name.value
    ensures name.None? <==> forall u :: u in users ==> u.id != userId
  {
    if users == [] then None
    else if users[0].id == userId then Some(users[0].username)
    else UserName(users[1..], userId)
  }

  /** Does ps match the neighbour nb? As written, the user id of ps is compared with the
      id of the neighbour's player state; the intended test compares user ids. */
  predicate NeighbourMatch(nb: PlayerState, ps: PlayerState, asWritten: bool)
  {
    if asWritten then ps.userId == nb.id else ps.userId == nb.userId
  }

  /** isNeighbor: the left neighbour is tested first, the right one only when the left
      one does not match; a missing neighbour is a null dereference. */
  function IsNeighbour(players: seq<PlayerState>, me: nat, ps: PlayerState, asWritten: bool): (r: Result<bool>)
    requires me < |players| && NeighboursInRange(players)
  {
    var left := players[me].leftNeighbor;
    var right := players[me].rightNeighbor;
    if left.None? then Throw(NullPointer)
    else if NeighbourMatch(players[left.value], ps, asWritten) then Ok(true)
    else if right.None? then Throw(NullPointer)
    else Ok(NeighbourMatch(players[right.value], ps, asWritten))
  }

  /** One players-list entry: id as text, user name, state and the neighbour flag. As
      written the state is the full state, hand and actions included. */
  function Entry(players: seq<PlayerState>, me: nat, users: seq<User>, ps: PlayerState, asWritten: bool): (r: Result<OtherView>)
    requires me < |players| && NeighboursInRange(players)
  {
    match UserName(users, ps.userId)
    case None => Throw(NullPointer)
    case Some(name) =>
      match IsNeighbour(players, me, ps, asWritten)
      case Throw(e) => Throw(e)
      case Ok(nb) => Ok(OtherView(IntToString(ps.id), name, if asWritten then ViewOf(ps) else PublicView(ps), nb))
  }

  /** The players loop over the states in list: an entry for every state not held by
      the requesting user, in list order; the first exception ends it. */
  function OthersSpec(players: seq<PlayerState>, me: nat, uid: int, users: seq<User>,
                      list: seq<PlayerState>, asWritten: bool): (r: Result<seq<OtherView>>)
    requires me < |players| && NeighboursInRange(players)
    decreases |list|
  {
    if list == [] then Ok([])
    else
      match OthersSpec(players, me, uid, users, list[..|list| - 1], asWritten)
      case Throw(e) => Throw(e)
      case Ok(prev) =>
        var ps := list[|list| - 1];
        if ps.userId == uid then Ok(prev)
        else match Entry(players, me, users, ps, asWritten)
          case Throw(e) => Throw(e)
          case Ok(v) => Ok(prev + [v])
  }

  /** The states in list not held by the user uid, in list order. */
  function Others(list: seq<PlayerState>, uid: int): (r: seq<PlayerState>)
    decreases |list|
  {
    if list == [] then []
    else Others(list[..|list| - 1], uid) + (if list[|list| - 1].userId != uid then [list[|list| - 1]] else [])
  }

  /** The others are exactly the states of the list whose user is not uid. */
  lemma {:induction false} OthersMembers(list: seq<PlayerState>, uid: int)
    ensures forall ps :: ps in Others(list, uid) <==> ps in list && ps.userId != uid
    decreases |list|
  {
    if list != [] {
      OthersMembers(list[..|list| - 1], uid);
      assert list == list[..|list| - 1] + [list[|list| - 1]];
    }
  }

  /** The entries of the given states, in order; the first exception ends it. */
  function Entries(players: seq<PlayerState>, me: nat, users: seq<User>, states: seq<PlayerState>,
                   asWritten: bool): (r: Result<seq<OtherView>>)
    requires me < |players| && NeighboursInRange(players)
    decreases |states|
  {
    if states == [] then Ok([])
    else
      match Entries(players, me, users, states[..|states| - 1], asWritten)
      case Throw(e) => Throw(e)
      case Ok(prev) =>
        match Entry(players, me, users, states[|states| - 1], asWritten)
        case Throw(e) => Throw(e)
        case Ok(v) => Ok(prev + [v])
  }

  /** The entries, when there are, are one per state and in the same order. */
  lemma {:induction false} EntriesPointwise(players: seq<PlayerState>, me: nat, users: seq<User>,
                                            states: seq<PlayerState>, asWritten: bool)
    requires me < |players| && NeighboursInRange(players)
    ensures var r := Entries(players, me, users, states, asWritten);
      r.Ok? ==> |r.value| == |states|
                && forall k :: 0 <= k < |states| ==> Entry(players, me, users, states[k], asWritten) == Ok(r.value[k])
    decreases |states|
  {
    var r := Entries(players, me, users, states, asWritten);
    if states != [] && r.Ok? {
      var prefix := states[..|states| - 1];
      var last := states[|states| - 1];
      var before := Entries(players, me, users, prefix, asWritten);
      var e := Entry(players, me, users, last, asWritten);
      assert before.Ok? && e.Ok? && r.value == before.value + [e.value];
      EntriesPointwise(players, me, users, prefix, asWritten);
      AppendPointwise(players, me, users, states, before.value, e.value, asWritten);
    }
  }

  /** The entries of all states but the last, and the entry of the last, are the
      entries of all states pointwise. */
  lemma AppendPointwise(players: seq<PlayerState>, me: nat, users: seq<User>, states: seq<PlayerState>,
                        before: seq<OtherView>, v: OtherView, asWritten: bool)
    requires me < |players| && NeighboursInRange(players) && states != []
    requires var prefix := states[..|states| - 1];
      |before| == |prefix| && forall k :: 0 <= k < |prefix| ==> Entry(players, me, users, prefix[k], asWritten) == Ok(before[k])
    requires Entry(players, me, users, states[|states| - 1], asWritten) == Ok(v)
    ensures forall k :: 0 <= k < |states| ==> Entry(players, me, users, states[k], asWritten) == Ok((before + [v])[k])
  {
    var prefix := states[..|states| - 1];
    forall k | 0 <= k < |states|
      ensures Entry(players, me, users, states[k], asWritten) == Ok((before + [v])[k])
    {
      if k < |prefix| {
        assert states[k] == prefix[k] && (before + [v])[k] == before[k];
      }
    }
  }

  /** The players loop is "drop the requester's states, then build an entry for each". */
  lemma {:induction false} OthersIsFilterThenMap(players: seq<PlayerState>, me: nat, uid: int, users: seq<User>,
                                                 list: seq<PlayerState>, asWritten: bool)
    requires me < |players| && NeighboursInRange(players)
    ensures OthersSpec(players, me, uid, users, list, asWritten) == Entries(players, me, users, Others(list, uid), asWritten)
    decreases |list|
  {
    if list != [] {
      var prefix := list[..|list| - 1];
      OthersIsFilterThenMap(players, me, uid, users, prefix, asWritten);
      var last := list[|list| - 1];
      var f := Others(list, uid);
      if last.userId != uid {
        assert f == Others(prefix, uid) + [last];
        assert f[..|f| - 1] == Others(prefix, uid) && f[|f| - 1] == last;
        assert Entries(players, me, users, f, asWritten)
          == match Entries(players, me, users, Others(prefix, uid), asWritten)
             case Throw(e) => Throw(e)
             case Ok(prev) =>
               match Entry(players, me, users, last, asWritten)
               case Throw(e) => Throw(e)
               case Ok(v) => Ok(prev + [v]);
      } else {
        assert f == Others(prefix, uid) + [] == Others(prefix, uid);
        assert OthersSpec(players, me, uid, users, list, asWritten) == OthersSpec(players, me, uid, users, prefix, asWritten);
      }
    }
  }

  /** The players list holds one entry per state of the game not held by the requester,
      in list order: the requester never appears, every other player does. */
  lemma RequesterExcluded(players: seq<PlayerState>, me: nat, uid: int, users: seq<User>, asWritten: bool)
    requires me < |players| && NeighboursInRange(players)
    ensures var r := OthersSpec(players, me, uid, users, players, asWritten);
      var f := Others(players, uid);
      r.Ok? ==>
        |r.value| == |f|
        && (forall k :: 0 <= k < |f| ==> Entry(players, me, users, f[k], asWritten) == Ok(r.value[k]))
        && (forall ps :: ps in f <==> ps in players && ps.userId != uid)
  {
    OthersIsFilterThenMap(players, me, uid, users, players, asWritten);
    EntriesPointwise(players, me, users, Others(players, uid), asWritten);
    OthersMembers(players, uid);
  }

  /** Once the loop has thrown, the rest of the list does not matter. */
  lemma {:induction false} OthersThrowSticks(players: seq<PlayerState>, me: nat, uid: int, users: seq<User>,
                                             list: seq<PlayerState>, n: nat, e: JavaException, asWritten: bool)
    requires me < |players| && NeighboursInRange(players)
    requires n <= |list| && OthersSpec(players, me, uid, users, list[..n], asWritten) == Throw(e)
    ensures OthersSpec(players, me, uid, users, list, asWritten) == Throw(e)
    decreases |list| - n
  {
    if n < |list| {
      assert list[..n + 1][..n] == list[..n];
      OthersThrowSticks(players, me, uid, users, list, n + 1, e, asWritten);
    } else {
      assert list[..n] == list;
    }
  }

  /** The players loop of getPlayerGameState, with the intended neighbour test and
      public states. */
  method OtherPlayers(players: seq<PlayerState>, me: nat, uid: int, users: seq<User>) returns (r: Result<seq<OtherView>>)
    requires me < |players| && NeighboursInRange(players)
    ensures r == OthersSpec(players, me, uid, users, players, false)
  {
    var acc: seq<OtherView> := [];
    var k := 0;
    while k < |players|
      invariant 0 <= k <= |players|
      invariant OthersSpec(players, me, uid, users, players[..k], false) == Ok(acc)
    {
      var ps := players[k];
      assert players[..k + 1][..k] == players[..k];
      if ps.userId != uid {
        var e := Entry(players, me, users, ps, false);
        if e.Throw? {
          OthersThrowSticks(players, me, uid, users, players, k + 1, e.exception, false);
          return Throw(e.exception);
        }
        acc := acc + [e.value];
      }
      k := k + 1;
    }
    assert players[..k] == players;
    r := Ok(acc);
  }

  // ---------------------------------------------------------------- the two findings

  /** As written, another player's entry carries that player's hand and actions; the
      intended public state carries neither. */
  lemma HandShownAsWritten(players: seq<PlayerState>, me: nat, users: seq<User>, ps: PlayerState)
    requires me < |players| && NeighboursInRange(players)
    ensures var e := Entry(players, me, users, ps, true);
      e.Ok? ==> e.value.state.hand == Some(Images(ps.hand)) && e.value.state.availableActions == Some(AvailableActions(ps))
    ensures var e := Entry(players, me, users, ps, false);
      e.Ok? ==> e.value.state.hand.None? && e.value.state.availableActions.None?
  {
  }

  /** When no player-state id equals a user id, as written the left neighbour is never
      reported as a neighbour; the intended test reports it. */
  lemma NeighbourCounterexample(players: seq<PlayerState>, me: nat)
    requires me < |players| && NeighboursInRange(players)
    requires players[me].leftNeighbor.Some? && players[me].rightNeighbor.Some?
    requires forall j, k :: 0 <= j < |players| && 0 <= k < |players| ==> players[j].id != players[k].userId
    ensures IsNeighbour(players, me, players[players[me].leftNeighbor.value], true) == Ok(false)
    ensures IsNeighbour(players, me, players[players[me].leftNeighbor.value], false) == Ok(true)
  {
  }

  /** With the intended test, the seats at the requester's left and right are exactly
      the players reported as neighbours, when user ids are unique. */
  lemma NeighbourIntended(players: seq<PlayerState>, me: nat, j: nat)
    requires me < |players| && NeighboursInRange(players) && j < |players|
    requires players[me].leftNeighbor.Some? && players[me].rightNeighbor.Some?
    requires forall a, b :: 0 <= a < b < |players| ==> players[a].userId != players[b].userId
    ensures IsNeighbour(players, me, players[j], false) == Ok(j == players[me].leftNeighbor.value || j == players[me].rightNeighbor.value)
  {
  }

  // ---------------------------------------------------------------- the whole reply

  /** The reply of getPlayerGameState. */
  datatype GameStateReply =
    | Unauthorized
    | NotFound
    | GameState(me: PlayerView, discarded: seq<(int, string)>, others: seq<OtherView>)

  /** The discard pile as (id, image) pairs, in pile order. */
  function Discarded(discard: seq<Card>): (r: seq<(int, string)>)
  {
    seq(|discard|, k requires 0 <= k < |discard| => (discard[k].id, discard[k].image))
  }

  /** getPlayerGameState over the game's states and discard pile (both empty when there
      is no such game). */
  function PlayerGameStateSpec(authName: Option<string>, users: seq<User>, players: seq<PlayerState>,
                               discard: seq<Card>): (r: Result<GameStateReply>)
    requires NeighboursInRange(players)
  {
    match WonderDecider.Caller(authName, users)
    case None => Ok(Unauthorized)
    case Some(user) =>
      match WonderDecider.SeatOf(players, user.id)
      case None => Ok(NotFound)
      case Some(k) =>
        match OthersSpec(players, k, user.id, users, players, false)
        case Throw(e) => Throw(e)
        case Ok(others) => Ok(GameState(ViewOf(players[k]), Discarded(discard), others))
  }

  /** A reply with a state is for a caller with a seat: it carries that seat's full
      state, the whole discard pile in order, and public entries for the other players. */
  lemma PlayerGameStateShape(authName: Option<string>, users: seq<User>, players: seq<PlayerState>, discard: seq<Card>)
    requires NeighboursInRange(players)
    ensures var r := PlayerGameStateSpec(authName, users, players, discard);
      r == Ok(Unauthorized) <==> WonderDecider.Caller(authName, users).None?
    ensures var r := PlayerGameStateSpec(authName, users, players, discard);
      r.Ok? && r.value.GameState? ==>
        var user := WonderDecider.Caller(authName, users).value;
        var k := WonderDecider.SeatOf(players, user.id).value;
        r.value.me == ViewOf(players[k])
        && |r.value.discarded| == |discard|
        && (forall j :: 0 <= j < |discard| ==> r.value.discarded[j] == (discard[j].id, discard[j].image))
        && |r.value.others| == |Others(players, user.id)|
        && (forall j :: 0 <= j < |r.value.others| ==>
              r.value.others[j].state.hand.None? && r.value.others[j].state.availableActions.None?)
  {
    var r := PlayerGameStateSpec(authName, users, players, discard);
    if r.Ok? && r.value.GameState? {
      var user := WonderDecider.Caller(authName, users).value;
      var k := WonderDecider.SeatOf(players, user.id).value;
      RequesterExcluded(players, k, user.id, users, false);
      var f := Others(players, user.id);
      forall j | 0 <= j < |r.value.others|
        ensures r.value.others[j].state.hand.None? && r.value.others[j].state.availableActions.None?
      {
        HandShownAsWritten(players, k, users, f[j]);
      }
    }
  }

  /** getPlayerGameState. */
  method GetPlayerGameState(authName: Option<string>, users: seq<User>, players: seq<PlayerState>,
                            discard: seq<Card>) returns (r: Result<GameStateReply>)
    requires NeighboursInRange(players)
    ensures r == PlayerGameStateSpec(authName, users, players, discard)
  {
    var user := WonderDecider.Caller(authName, users);
    if user.None? {
      return Ok(Unauthorized);
    }
    var seat := WonderDecider.SeatOf(players, user.value.id);
    if seat.None? {
      return Ok(NotFound);
    }
    var k := seat.value;
    var others := OtherPlayers(players, k, user.value.id, users);
    if others.Throw? {
      return Throw(others.exception);
    }
    r := Ok(GameState(ViewOf(players[k]), Discarded(discard), others.value));
  }
}
