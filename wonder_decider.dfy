/** The choose-side page and its form: a player whose board was assigned at setup picks
    one of its faces, which fixes the board, resets its stage and gives the starting
    resources. The player states of the game are the game's list; the login name comes
    from the authentication, if any. */
module WonderDecider {
  import opened Common
  import opened Entities
  import opened GameEntities
  import opened WonderService
  import Users

  /** The redirects of the controller. */
  datatype Redirect = ToLogin | ToHome | ToPlay(gameId: int) | ToChooseSide(gameId: int)

  /** The first player state of the game held by the user (findByGameIdAndUserId). */
  function SeatOf(players: seq<PlayerState>, userId: int): (k: Option<nat>)
    ensures k.Some? ==> k.value < |players| && players[k.value].userId == userId
                        && forall j :: 0 <= j < k.value ==> players[j].userId != userId
    ensures k.None? <==> forall j :: 0 <= j < |players| ==> players[j].userId != userId
  {
    if players == [] then None
    else if players[0].userId == userId then Some(0)
    else match SeatOf(players[1..], userId)
      case None => None
      case Some(k) => Some(k + 1)
  }

  /** getWonderById: the catalogue entry with that id, if any. */
  function WonderById(catalogue: seq<Wonder>, id: int): (w: Option<Wonder>)
    ensures w.Some? ==> w.value in catalogue && w.value.id == id
    ensures w.None? <==> forall v :: v in catalogue ==> v.id != id
  {
    if catalogue == [] then None
    else if catalogue[0].id == id then Some(catalogue[0])
    else WonderById(catalogue[1..], id)
  }

  /** The player state once the face is chosen: the board and its name are set, no stage
      is built and the resources are the face's starting resources. */
  function WithFace(p: PlayerState, w: Wonder): (q: PlayerState)
  {
    p.(wonder := Some(w), wonderName := Some(w.name), wonderStage := 0, resources := w.startingResources)
  }

  /** The user the authentication names, looked up by the name as given. */
  function Caller(authName: Option<string>, users: seq<User>): (u: Option<User>)
    ensures u.Some? <==> authName.Some? && Users.UsernameExists(users, authName.value)
  {
    if authName.None? then None else Users.FindByUsername(users, authName.value)
  }

  /** chooseWonderSide: the redirect and the player states of the game afterwards. */
  function ChooseSideSpec(authName: Option<string>, users: seq<User>, gameId: int, wonderId: int,
                          catalogue: seq<Wonder>, players: seq<PlayerState>): (r: (Redirect, seq<PlayerState>))
  {
    match Caller(authName, users)
    case None => (ToLogin, players)
    case Some(user) =>
      match SeatOf(players, user.id)
      case None => (ToHome, players)
      case Some(k) =>
        var p := players[k];
        if p.wonderName.Some? then (ToPlay(gameId), players)
        else match WonderById(catalogue, wonderId)
          case None => (ToChooseSide(gameId), players)
          case Some(w) =>
            if p.wonder.None? || w.name != p.wonder.value.name then (ToChooseSide(gameId), players)
            else (ToPlay(gameId), players[k := WithFace(p, w)])
  }

  /** The guard chain: no login or an unknown user goes to the login page, a user without
      a seat goes home, a chosen side goes to play, a missing face or one of another
      board goes back to the choice; only the last step changes a state, that of the
      caller's seat, and then it goes to play. */
  lemma ChooseSideOutcomes(authName: Option<string>, users: seq<User>, gameId: int, wonderId: int,
                           catalogue: seq<Wonder>, players: seq<PlayerState>)
    ensures var (r, after) := ChooseSideSpec(authName, users, gameId, wonderId, catalogue, players);
      |after| == |players|
      && (Caller(authName, users).None? <==> r == ToLogin)
      && (r == ToHome <==> Caller(authName, users).Some? && SeatOf(players, Caller(authName, users).value.id).None?)
      && (r.ToChooseSide? ==> r.gameId == gameId)
      && (after != players ==>
            r == ToPlay(gameId)
            && var k := SeatOf(players, Caller(authName, users).value.id).value;
               var w := WonderById(catalogue, wonderId).value;
               players[k].wonderName.None? && players[k].wonder.Some? && w.name == players[k].wonder.value.name
               && after[k] == WithFace(players[k], w)
               && forall j :: 0 <= j < |players| && j != k ==> after[j] == players[j])
  {
  }

  /** A side once chosen is final: a second submission, of any face, changes nothing and
      goes to play. */
  lemma {:induction false} ChooseSideOnce(authName: Option<string>, users: seq<User>, gameId: int, wonderId: int,
                                          wonderId2: int, catalogue: seq<Wonder>, players: seq<PlayerState>)
    ensures var (r, after) := ChooseSideSpec(authName, users, gameId, wonderId, catalogue, players);
      r == ToPlay(gameId) ==>
        ChooseSideSpec(authName, users, gameId, wonderId2, catalogue, after) == (ToPlay(gameId), after)
  {
    var (r, after) := ChooseSideSpec(authName, users, gameId, wonderId, catalogue, players);
    if r == ToPlay(gameId) {
      var user := Caller(authName, users).value;
      var k := SeatOf(players, user.id).value;
      if after != players {
        assert after == players[k := WithFace(players[k], WonderById(catalogue, wonderId).value)];
        assert forall j :: 0 <= j < |after| ==> after[j].userId == players[j].userId;
      }
      assert SeatOf(after, user.id) == Some(k);
      assert after[k].wonderName.Some?;
    }
  }

  /** The states of the game with that id, none when there is no such game. */
  function StatesOf(game: Game?, gameId: int): (players: seq<PlayerState>)
    reads game
    ensures game == null || game.id != gameId ==> players == []
  {
    if game != null && game.id == gameId then game.players else []
  }

  /** chooseWonderSide over the game's list of player states. */
  method ChooseWonderSide(gameId: int, wonderId: int, authName: Option<string>, users: seq<User>,
                          game: Game?, catalogue: seq<Wonder>) returns (r: Redirect)
    modifies (if game == null then {} else {game})`players
    ensures (r, StatesOf(game, gameId)) == ChooseSideSpec(authName, users, gameId, wonderId, catalogue,
                                                          old(StatesOf(game, gameId)))
    ensures game != null ==> |game.players| == |old(game.players)|
  {
    if authName.None? {
      return ToLogin;
    }
    var user := Users.FindByUsername(users, authName.value);
    if user.None? {
      return ToLogin;
    }
    var players := StatesOf(game, gameId);
    var seat := SeatOf(players, user.value.id);
    if seat.None? {
      return ToHome;
    }
    var k := seat.value;
    var p := players[k];
    if p.wonderName.Some? {
      return ToPlay(gameId);
    }
    var selected := WonderById(catalogue, wonderId);
    if selected.None? || p.wonder.None? || selected.value.name != p.wonder.value.name {
      return ToChooseSide(gameId);
    }
    var w := selected.value;
    game.players := game.players[k := WithFace(p, w)];
    r := ToPlay(gameId);
  }

  /** What the choose-side page shows: the faces of the assigned board and its name. */
  datatype ShowView = Redirected(redirect: Redirect) | ChooseSidePage(wonders: seq<Wonder>, gameId: int, wonderName: string)

  /** showChooseWonderSide: the same guards, then the faces of the board the seat was
      given; a seat without a board fails with a NullPointerException. */
  function ShowChooseWonderSide(authName: Option<string>, users: seq<User>, gameId: int, catalogue: seq<Wonder>,
                                players: seq<PlayerState>): (r: Result<ShowView>)
  {
    match Caller(authName, users)
    case None => Ok(Redirected(ToLogin))
    case Some(user) =>
      match SeatOf(players, user.id)
      case None => Ok(Redirected(ToHome))
      case Some(k) =>
        var p := players[k];
        if p.wonderName.Some? then Ok(Redirected(ToPlay(gameId)))
        else if p.wonder.None? then Throw(NullPointer)
        else Ok(ChooseSidePage(FacesOf(catalogue, p.wonder.value.name), gameId, p.wonder.value.name))
  }

  /** The page and the form agree: every face the page offers, submitted by the same
      user, is accepted when catalogue ids are unique, and the seat then holds that face. */
  lemma {:induction false} OfferedFaceAccepted(authName: Option<string>, users: seq<User>, gameId: int,
                                               catalogue: seq<Wonder>, players: seq<PlayerState>, w: Wonder)
    requires forall i, j :: 0 <= i < j < |catalogue| ==> catalogue[i].id != catalogue[j].id
    requires var page := ShowChooseWonderSide(authName, users, gameId, catalogue, players);
      page.Ok? && page.value.ChooseSidePage? && w in page.value.wonders
    ensures var (r, after) := ChooseSideSpec(authName, users, gameId, w.id, catalogue, players);
      var k := SeatOf(players, Caller(authName, users).value.id).value;
      r == ToPlay(gameId) && after == players[k := WithFace(players[k], w)]
      && after[k].wonderName == Some(players[k].wonder.value.name)
  {
    var k := SeatOf(players, Caller(authName, users).value.id).value;
    assert w in catalogue && w.name == players[k].wonder.value.name;
    UniqueIdFound(catalogue, w);
  }

  /** With unique ids, looking a catalogue entry up by its id finds that entry. */
  lemma {:induction false} UniqueIdFound(catalogue: seq<Wonder>, w: Wonder)
    requires forall i, j :: 0 <= i < j < |catalogue| ==> catalogue[i].id != catalogue[j].id
    requires w in catalogue
    ensures WonderById(catalogue, w.id) == Some(w)
  {
    if catalogue[0] != w {
      assert catalogue[0].id != w.id by {
        var j :| 0 <= j < |catalogue| && catalogue[j] == w;
      }
      UniqueIdFound(catalogue[1..], w);
    }
  }
}
