/** GameService: creating games, the lobby guards of joining, leaving and starting, the
    final status changes, the full set-up of a game from a list of user ids, and the
    conversion of a game to its transfer object. The repository's lookup by id is a
    nullable game parameter (null when no game has that id); the clock is a parameter. */
module GameService {
  import opened Common
  import opened Ages
  import opened Entities
  import opened GameEntities
  import opened WonderService
  import GameInit
  import CardActionService
  import CardDistribution

  const GameNotFound := IllegalArgument("Game not found")
  const AlreadyStarted := IllegalState("Game has already started")

  /** The guard of addUserToGame and startGame: a missing game is refused first, then a
      game that has left the lobby. */
  function LobbyGuard(found: bool, status: GameStatus): (e: Option<JavaException>)
    ensures e.None? <==> found && status == WAITING
  {
    if !found then Some(GameNotFound)
    else if status != WAITING then Some(AlreadyStarted)
    else None
  }

  /** createGame(nbrPlayers): a fresh game in the lobby; createGame() passes None. */
  method CreateGame(id: int, nbrPlayers: Option<int>) returns (g: Game)
    ensures fresh(g) && g.id == id && g.status == WAITING && g.nbrPlayers == nbrPlayers
    ensures g.users == [] && g.players == [] && g.discard == [] && g.currentAge == None && g.winner == None
  {
    g := new Game(id);
    g.status := WAITING;
    g.nbrPlayers := nbrPlayers;
  }

  /** addUserToGame: the user is appended to a game still in the lobby. */
  method AddUserToGame(game: Game?, user: User) returns (error: Option<JavaException>)
    modifies (if game == null then {} else {game})`users
    ensures game != null ==> error == LobbyGuard(true, old(game.status))
    ensures game == null ==> error == LobbyGuard(false, WAITING)
    ensures game != null ==> game.users == (if error.None? then old(game.users) + [user] else old(game.users))
  {
    if game == null {
      return Some(GameNotFound);
    }
    if game.status != WAITING {
      return Some(AlreadyStarted);
    }
    game.AddUser(user);
    error := None;
  }

  /** removeUserFromGame: only the missing game is refused; the first equal user leaves,
      whatever the status. */
  method RemoveUserFromGame(game: Game?, user: User) returns (error: Option<JavaException>)
    modifies (if game == null then {} else {game})`users
    ensures game == null <==> error == Some(GameNotFound)
    ensures game != null ==> error == None && game.users == RemoveFirst(old(game.users), user)
  {
    if game == null {
      return Some(GameNotFound);
    }
    game.RemoveUser(user);
    error := None;
  }

  /** A user that was not in the game and joins it leaves the list as it was when
      removed again. */
  lemma {:induction false} JoinThenLeave(users: seq<User>, u: User)
    requires u !in users
    ensures RemoveFirst(users + [u], u) == users
  {
    if users != [] {
      assert (users + [u])[1..] == users[1..] + [u];
      JoinThenLeave(users[1..], u);
    }
  }

  /** startGame: a game in the lobby becomes STARTING at the given time, and the loop
      creates one player state per user, at positions 0, 1, 2, ... in the order the users
      joined. */
  method StartGame(game: Game?, now: int) returns (error: Option<JavaException>)
    modifies game
    ensures game != null ==> error == LobbyGuard(true, old(game.status))
    ensures game == null ==> error == LobbyGuard(false, WAITING)
    ensures game != null && error.Some? ==> unchanged(game)
    ensures game != null && error.None? ==>
      game.status == STARTING && game.startedAt == Some(now) && game.users == old(game.users)
      && game.players == old(game.players) + GameInit.Seats(game.id, game.users)
  {
    if game == null {
      return Some(GameNotFound);
    }
    if game.status != WAITING {
      return Some(AlreadyStarted);
    }
    game.status := STARTING;
    game.startedAt := Some(now);
    ghost var before := game.players;
    var seated := game.users;
    for position := 0 to |seated|
      invariant game.users == seated && game.status == STARTING && game.startedAt == Some(now)
      invariant game.players == before + GameInit.Seats(game.id, seated[..position])
    {
      var user := seated[position];
      var created := NewPlayerState(position, game.id, user.id, position);
      var added := game.AddPlayerState(created);
      assert seated[..position + 1] == seated[..position] + [user];
      assert GameInit.Seats(game.id, seated[..position + 1])
          == GameInit.Seats(game.id, seated[..position]) + [created];
    }
    assert seated[..|seated|] == seated;
    error := None;
  }

  /** The seats startGame creates for the users of a game sit at positions 0, 1, 2, ...
      each holding its user, so that the neighbour links of the table go around it. */
  lemma StartedSeatsInOrder(gameId: int, users: seq<User>)
    ensures var r := GameInit.Seats(gameId, users);
      GameInit.SeatedInOrder(r)
      && forall k :: 0 <= k < |r| ==>
        r[k].userId == users[k].id && r[k].gameId == Some(gameId)
        && r[k].hand == [] && r[k].coins == 3 && r[k].wonder == None
  {
  }

  /** finishGame: FINISHED at the given time with the given winner (None for a null
      user), whatever the status. */
  method FinishGame(game: Game?, winner: Option<User>, now: int) returns (error: Option<JavaException>)
    modifies game
    ensures game == null <==> error == Some(GameNotFound)
    ensures game != null ==>
      game.status == FINISHED && game.finishedAt == Some(now)
      && game.winner == (if winner.Some? then Some(winner.value.id) else None)
      && unchanged(game`users, game`players, game`discard, game`startedAt)
  {
    if game == null {
      return Some(GameNotFound);
    }
    game.status := FINISHED;
    game.finishedAt := Some(now);
    game.winner := if winner.Some? then Some(winner.value.id) else None;
    error := None;
  }

  /** cancelGame: CANCELLED at the given time, whatever the status. */
  method CancelGame(game: Game?, now: int) returns (error: Option<JavaException>)
    modifies game
    ensures game == null <==> error == Some(GameNotFound)
    ensures game != null ==>
      game.status == CANCELLED && game.finishedAt == Some(now)
      && unchanged(game`users, game`players, game`discard, game`winner)
  {
    if game == null {
      return Some(GameNotFound);
    }
    game.status := CANCELLED;
    game.finishedAt := Some(now);
    error := None;
  }

  /** The Age I deal of handleGameCreation keeps a prepared table prepared, gives every
      seat the same share of the Age I cards, and lays the hands out as a prefix of the
      shuffled deck. */
  lemma DealKeepsPrepared(players: seq<PlayerState>, seated: seq<User>, wonders: seq<Wonder>,
                          names: seq<string>, pick: nat -> nat, catalogue: seq<Card>,
                          shuffle: seq<Card> -> seq<Card>)
    requires IsNameOrder(names, wonders) && GameInit.Prepared(players, seated, wonders, names, pick)
    requires CardActionService.DealSpec(players, catalogue, AGE_I, shuffle, false).Ok?
    ensures var r := CardActionService.DealSpec(players, catalogue, AGE_I, shuffle, false).value;
      var h := CardActionService.HandShare(|CardActionService.CardsOfAge(catalogue, AGE_I)|, |players|);
      GameInit.Prepared(r, seated, wonders, names, pick)
      && (forall k :: 0 <= k < |r| ==> |r[k].hand| == h)
      && 0 <= |r| * h
      && CardDistribution.AllHands(r) <= CardActionService.AgeDeck(catalogue, AGE_I, |r|, shuffle, false).value
  {
    CardActionService.DealSlicesDeck(players, catalogue, AGE_I, shuffle, false);
  }

  /** setupGameWithPlayers: a game for |playerIds| players in Age I, still in the lobby;
      the known users join and get seats in order, neighbours are linked, the wonders are
      assigned and the Age I cards dealt. An exception (no known user at all, too few
      cards) rolls the whole transaction back, so that no game is created. */
  method SetupGameWithPlayers(id: int, playerIds: seq<int>, users: map<int, User>, wonders: seq<Wonder>,
                              names: seq<string>, pick: nat -> nat, catalogue: seq<Card>,
                              shuffle: seq<Card> -> seq<Card>)
    returns (g: Game, error: Option<JavaException>)
    requires IsNameOrder(names, wonders)
    ensures fresh(g)
    ensures GameInit.KnownUsers(playerIds, users) == [] ==> error == Some(Arithmetic)
    ensures error.None? ==>
      g.status == WAITING && g.currentAge == Some(AGE_I) && g.nbrPlayers == Some(|playerIds|)
      && g.users == GameInit.KnownUsers(playerIds, users)
      && GameInit.Prepared(g.players, g.users, wonders, names, pick)
      && forall k :: 0 <= k < |g.players| ==>
        |g.players[k].hand| == CardActionService.HandShare(|CardActionService.CardsOfAge(catalogue, AGE_I)|, |g.players|)
  {
    g := CreateGame(id, Some(|playerIds|));
    g.currentAge := Some(AGE_I);
    error := GameInit.PrepareTable(g, playerIds, users, wonders, names, pick);
    if error.Some? {
      return;
    }
    assert g.nbrPlayers == Some(|playerIds|) && g.status == WAITING && g.currentAge == Some(AGE_I);
    ghost var prepared := g.players;
    assert |prepared| == |GameInit.KnownUsers(playerIds, users)|;
    error := CardActionService.DealAgeCards(g, catalogue, shuffle);
    if error.Some? {
      assert prepared == [] ==> CardActionService.DealSpec(prepared, catalogue, AGE_I, shuffle, false) == Throw(Arithmetic);
      return;
    }
    assert g.nbrPlayers == Some(|playerIds|) && g.status == WAITING && g.currentAge == Some(AGE_I);
    assert CardActionService.DealSpec(prepared, catalogue, AGE_I, shuffle, false) == Ok(g.players);
    DealKeepsPrepared(prepared, g.users, wonders, names, pick, catalogue, shuffle);
  }

  /** The transfer object of a game. The age decks are not part of this model. */
  datatype GameDTO = GameDTO(
    id: int,
    userIds: seq<int>,
    usernames: seq<string>,
    playerCount: nat,
    discardCardIds: seq<int>,
    status: GameStatus,
    currentAge: Option<Age>,
    currentTurn: int,
    nbrPlayers: Option<int>,
    startedAt: Option<int>,
    finishedAt: Option<int>,
    winnerId: Option<int>,
    winnerUsername: Option<string>,
    currentPlayerIndex: int)

  function UserIds(users: seq<User>): (r: seq<int>)
    ensures |r| == |users| && forall k :: 0 <= k < |users| ==> r[k] == users[k].id
  {
    seq(|users|, k requires 0 <= k < |users| => users[k].id)
  }

  function Usernames(users: seq<User>): (r: seq<string>)
    ensures |r| == |users| && forall k :: 0 <= k < |users| ==> r[k] == users[k].username
  {
    seq(|users|, k requires 0 <= k < |users| => users[k].username)
  }

  function CardIds(cards: seq<Card>): (r: seq<int>)
    ensures |r| == |cards| && forall k :: 0 <= k < |cards| ==> r[k] == cards[k].id
  {
    seq(|cards|, k requires 0 <= k < |cards| => cards[k].id)
  }

  /** convertToDTO: null stays null; the lists become id lists in the same order, and
      the winner fields are set only when the game has a winner. The game stores the
      winner's user id; accounts resolves it to the user entity. */
  function ConvertToDTO(game: Game?, accounts: map<int, User>): (d: Option<GameDTO>)
    reads game
  {
    if game == null then None
    else
      var winner := if game.winner.Some? && game.winner.value in accounts
                    then Some(accounts[game.winner.value]) else None;
      Some(GameDTO(game.id, UserIds(game.users), Usernames(game.users), |game.players|,
                   CardIds(game.discard), game.status, game.currentAge, game.currentTurn,
                   game.nbrPlayers, game.startedAt, game.finishedAt,
                   if winner.Some? then Some(winner.value.id) else None,
                   if winner.Some? then Some(winner.value.username) else None,
                   game.currentPlayerIndex))
  }

  /** The transfer object exists exactly for a game, keeps its users in order and pairs
      each user id with its user name; the two winner fields are set together, and only
      for a game with a known winner, whose id they carry. */
  lemma ConvertToDTOFields(game: Game?, accounts: map<int, User>)
    ensures ConvertToDTO(game, accounts).None? <==> game == null
    ensures game != null ==>
      var d := ConvertToDTO(game, accounts).value;
      d.id == game.id && d.status == game.status && |d.userIds| == |d.usernames| == |game.users|
      && (forall k :: 0 <= k < |game.users| ==>
            d.userIds[k] == game.users[k].id && d.usernames[k] == game.users[k].username)
      && (d.winnerId.Some? <==> d.winnerUsername.Some?)
      && (d.winnerId.Some? <==> game.winner.Some? && game.winner.value in accounts)
      && (d.winnerId.Some? ==>
            d.winnerId == Some(accounts[game.winner.value].id)
            && d.winnerUsername == Some(accounts[game.winner.value].username))
  {
  }
}
