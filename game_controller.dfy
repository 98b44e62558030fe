/** GameController.submitCreateGame: the game-creation form. After the authentication
    and player-count checks, a game is created for the requested number of players; every
    requested id that names an existing user gets a seat at the next position with a face
    of the next shuffled wonder name; then seven consecutive cards of the shuffled Age I
    deck go to each seat in turn, and each seat is saved once its seven cards are in. The
    controller runs no transaction of its own, so an exception half way leaves the game
    with what was saved: the seats created so far and the hands completed so far; the
    cards a seat received before the deck ran out are never saved. The page reports the
    exception. The shuffles and the random face choice are parameters. */
module GameController {
  import opened Common
  import opened Ages
  import opened Entities
  import opened GameEntities
  import opened WonderService
  import opened CardDistribution
  import GameInit
  import GameService
  import CardActionService

  const PlayerCountError := "Please select between 3 and 7 players"

  /** Where the form sends the browser: the login page, the form again with a validation
      error, the form again with "Error creating game: " and the message of the exception
      that stopped the creation, or the new game. */
  datatype CreateView =
    | RedirectToLogin
    | CreateGamePage(error: string)
    | CreateFailed(cause: JavaException)
    | RedirectToPlay(gameId: int)

  /** The selection the form accepts: a list of 3 to 7 ids. */
  predicate ValidSelection(playerIds: Option<seq<int>>)
  {
    playerIds.Some? && 3 <= |playerIds.value| <= 7
  }

  /** Seat k of a known user, with the name and face of the board the random choice
      picks under the name at place k of the shuffled name list. */
  function NamedSeat(gameId: int, user: User, k: nat, wonders: seq<Wonder>, names: seq<string>,
                     pick: nat -> nat): (p: PlayerState)
    requires EveryNameHasFaces(names, wonders) && names != []
    ensures p.position == k && p.userId == user.id && p.hand == []
    ensures p.wonderName == Some(AssignedWonder(wonders, names, pick, k).name)
  {
    var w := AssignedWonder(wonders, names, pick, k);
    NewPlayerState(k, gameId, user.id, k).(wonderName := Some(w.name), wonderSide := w.face)
  }

  /** The named seats of the known users, in order. */
  function NamedSeats(gameId: int, seated: seq<User>, wonders: seq<Wonder>, names: seq<string>,
                      pick: nat -> nat): (r: seq<PlayerState>)
    requires EveryNameHasFaces(names, wonders) && (seated != [] ==> names != [])
    ensures |r| == |seated|
  {
    seq(|seated|, k requires 0 <= k < |seated| => NamedSeat(gameId, seated[k], k, wonders, names, pick))
  }

  lemma NamedSeatsAppend(gameId: int, seated: seq<User>, user: User, wonders: seq<Wonder>, names: seq<string>,
                         pick: nat -> nat)
    requires EveryNameHasFaces(names, wonders) && names != []
    ensures NamedSeats(gameId, seated + [user], wonders, names, pick)
         == NamedSeats(gameId, seated, wonders, names, pick) + [NamedSeat(gameId, user, |seated|, wonders, names, pick)]
  {
    var a := NamedSeats(gameId, seated + [user], wonders, names, pick);
    var b := NamedSeats(gameId, seated, wonders, names, pick) + [NamedSeat(gameId, user, |seated|, wonders, names, pick)];
    forall k | 0 <= k < |a| ensures a[k] == b[k] {
      assert (seated + [user])[k] == if k < |seated| then seated[k] else user;
    }
  }

  /** The part of the deck made of complete runs of seven cards. */
  function Whole(deck: seq<Card>): (w: nat)
    ensures w <= |deck| < w + 7
  {
    7 * (|deck| / 7)
  }

  /** The cards seat j keeps: the j-th run of seven cards of the deck when the deck holds
      all seven, and none otherwise, since a seat whose run is cut short is never saved. */
  function HandAt(deck: seq<Card>, j: nat): (hand: seq<Card>)
  {
    RunStartGrows(deck, j, j + 1);
    deck[RunStart(deck, j)..RunStart(deck, j + 1)]
  }

  /** Where the j-th run starts within the complete runs of the deck. */
  function RunStart(deck: seq<Card>, j: nat): (s: nat)
    ensures s <= Whole(deck)
  {
    Min(7 * j, Whole(deck))
  }

  /** Later runs start no earlier. */
  lemma RunStartGrows(deck: seq<Card>, i: nat, j: nat)
    requires i <= j
    ensures RunStart(deck, i) <= RunStart(deck, j)
  {
  }

  /** A seat's run is its seven cards when the deck holds them all, and nothing
      otherwise. */
  lemma HandAtRun(deck: seq<Card>, j: nat)
    ensures 7 * (j + 1) <= |deck| ==> HandAt(deck, j) == deck[7 * j..7 * (j + 1)]
    ensures 7 * (j + 1) > |deck| ==> HandAt(deck, j) == []
  {
  }

  /** Every seat with its run of the deck appended to its hand, for the seats whose run
      the deck holds in full; the others keep their hands. */
  function DealtSevens(players: seq<PlayerState>, deck: seq<Card>): (r: seq<PlayerState>)
    ensures |r| == |players|
    ensures forall j :: 0 <= j < |r| ==> r[j] == players[j].(hand := r[j].hand)
  {
    seq(|players|, j requires 0 <= j < |players| => players[j].(hand := players[j].hand + HandAt(deck, j)))
  }

  /** The outcome of a valid selection: the page, the users and the player states the
      game ends with. With no board names the first known user is seated and the name
      lookup i % 0 throws; otherwise all known users are seated and named and the cards
      are dealt until the deck runs out, which throws when it runs out early, leaving
      the seats from the one that ran short onwards without cards. */
  function CreateSpec(gameId: int, playerIds: seq<int>, users: map<int, User>, wonders: seq<Wonder>,
                      names: seq<string>, pick: nat -> nat, deck: seq<Card>): (r: (CreateView, seq<User>, seq<PlayerState>))
    requires EveryNameHasFaces(names, wonders)
  {
    var seated := GameInit.KnownUsers(playerIds, users);
    if seated != [] && names == [] then
      (CreateFailed(Arithmetic), seated[..1], GameInit.Seats(gameId, seated[..1]))
    else
      var players := DealtSevens(NamedSeats(gameId, seated, wonders, names, pick), deck);
      (if 7 * |seated| <= |deck| then RedirectToPlay(gameId) else CreateFailed(IndexOutOfBounds),
       seated, players)
  }

  /** The users known among a prefix of the ids are a prefix of those known among all. */
  lemma {:induction false} KnownUsersPrefix(playerIds: seq<int>, users: map<int, User>, i: nat)
    requires i <= |playerIds|
    ensures GameInit.KnownUsers(playerIds[..i], users) <= GameInit.KnownUsers(playerIds, users)
    decreases |playerIds|
  {
    if i < |playerIds| {
      var init := playerIds[..|playerIds| - 1];
      assert init[..i] == playerIds[..i];
      KnownUsersPrefix(init, users, i);
    } else {
      assert playerIds[..i] == playerIds;
    }
  }

  /** Looking at one more id adds its user, if there is one, at the end. */
  lemma KnownUsersStep(playerIds: seq<int>, users: map<int, User>, i: nat)
    requires i < |playerIds|
    ensures GameInit.KnownUsers(playerIds[..i + 1], users)
         == GameInit.KnownUsers(playerIds[..i], users) + (if playerIds[i] in users then [users[playerIds[i]]] else [])
  {
    var p := playerIds[..i + 1];
    assert p[..|p| - 1] == playerIds[..i];
  }

  /** The first id that names a user gives the first seated user. */
  lemma FirstKnownUser(playerIds: seq<int>, users: map<int, User>, i: nat)
    requires i < |playerIds| && playerIds[i] in users
    requires GameInit.KnownUsers(playerIds[..i], users) == []
    ensures GameInit.KnownUsers(playerIds, users) != []
    ensures GameInit.KnownUsers(playerIds, users)[..1] == [users[playerIds[i]]]
  {
    KnownUsersStep(playerIds, users, i);
    KnownUsersPrefix(playerIds, users, i + 1);
  }

  /** One known user joins the game, gets the seat at the next position, and then its
      board name and face. */
  method SeatAndName(g: Game, user: User, position: nat, wonders: seq<Wonder>, names: seq<string>,
                     pick: nat -> nat)
    requires EveryNameHasFaces(names, wonders) && names != []
    requires g.status == WAITING && position == |g.users|
    requires g.players == NamedSeats(g.id, g.users, wonders, names, pick)
    modifies g`users, g`players
    ensures g.users == old(g.users) + [user]
    ensures g.players == NamedSeats(g.id, g.users, wonders, names, pick)
  {
    var joined := GameService.AddUserToGame(g, user);
    var created := g.AddPlayerState(NewPlayerState(position, g.id, user.id, position));
    var selected := AssignedWonder(wonders, names, pick, position);
    g.players := g.players[position := g.players[position].(wonderName := Some(selected.name), wonderSide := selected.face)];
    NamedSeatsAppend(g.id, old(g.users), user, wonders, names, pick);
  }

  /** The first known user joins an empty game and gets seat 0; its name lookup is the
      one that throws. */
  method SeatUnnamed(g: Game, user: User)
    requires g.status == WAITING && g.users == [] && g.players == []
    modifies g`users, g`players
    ensures g.users == [user] && g.players == GameInit.Seats(g.id, [user])
  {
    var joined := GameService.AddUserToGame(g, user);
    var created := g.AddPlayerState(NewPlayerState(0, g.id, user.id, 0));
    assert g.players == GameInit.Seats(g.id, [user]);
  }

  /** The seating loop: every id that names a user gets a seat, at positions 0, 1, 2,
      ...; with no board names the name lookup of the first seated user throws. */
  method SeatKnownUsers(g: Game, playerIds: seq<int>, users: map<int, User>, wonders: seq<Wonder>,
                        names: seq<string>, pick: nat -> nat)
    returns (error: Option<JavaException>)
    requires EveryNameHasFaces(names, wonders)
    requires g.status == WAITING && g.users == [] && g.players == []
    modifies g`users, g`players
    ensures var seated := GameInit.KnownUsers(playerIds, users);
      if seated != [] && names == [] then
        error == Some(Arithmetic) && g.users == seated[..1] && g.players == GameInit.Seats(g.id, seated[..1])
      else
        error == None && g.users == seated && g.players == NamedSeats(g.id, seated, wonders, names, pick)
  {
    var position := 0;
    for i := 0 to |playerIds|
      invariant g.users == GameInit.KnownUsers(playerIds[..i], users) && position == |g.users|
      invariant names == [] ==> g.users == []
      invariant g.players == NamedSeats(g.id, g.users, wonders, names, pick)
    {
      KnownUsersStep(playerIds, users, i);
      if playerIds[i] in users {
        var user := users[playerIds[i]];
        if names == [] {
          SeatUnnamed(g, user);
          FirstKnownUser(playerIds, users, i);
          return Some(Arithmetic);
        }
        SeatAndName(g, user, position, wonders, names, pick);
        position := position + 1;
      }
    }
    assert playerIds[..|playerIds|] == playerIds;
    error := None;
  }

  /** When the deck runs out while seat `k` is dealt, the seats before it hold their runs
      and every later seat, `k` included, holds what it held before: that is the deal. */
  lemma ShortDealKept(before: seq<PlayerState>, deck: seq<Card>, players: seq<PlayerState>, k: nat)
    requires |players| == |before| && k < |before| && |deck| < 7 * (k + 1)
    requires forall j :: 0 <= j < k ==> players[j] == before[j].(hand := before[j].hand + HandAt(deck, j))
    requires forall j :: k <= j < |before| ==> players[j] == before[j]
    ensures players == DealtSevens(before, deck)
  {
    forall j | k <= j < |before| ensures players[j] == DealtSevens(before, deck)[j] {
      HandAtRun(deck, j);
      assert before[j].hand + [] == before[j].hand;
    }
  }

  /** The dealing loops: seven times per seat, the next card of the deck is appended to
      the seat's hand, and the seat is saved after its seventh card; the list access past
      the end of the deck throws, and the seat being dealt keeps its saved hand. */
  method DealSevens(g: Game, deck: seq<Card>) returns (error: Option<JavaException>)
    modifies g`players
    ensures g.players == DealtSevens(old(g.players), deck)
    ensures error.None? <==> 7 * |g.players| <= |deck|
    ensures error.Some? ==> error == Some(IndexOutOfBounds)
  {
    ghost var before := g.players;
    var n := |g.players|;
    var cardIndex := 0;
    for k := 0 to n
      invariant |g.players| == n && cardIndex == 7 * k <= |deck|
      invariant forall j :: 0 <= j < k ==> g.players[j] == before[j].(hand := before[j].hand + HandAt(deck, j))
      invariant forall j :: k <= j < n ==> g.players[j] == before[j]
    {
      // the seat's hand list, appended to in place and saved by updatePlayerState
      var hand := g.players[k].hand;
      for c := 0 to 7
        invariant cardIndex == 7 * k + c <= |deck|
        invariant hand == before[k].hand + deck[7 * k..cardIndex]
      {
        if cardIndex >= |deck| {
          ShortDealKept(before, deck, g.players, k);
          return Some(IndexOutOfBounds);
        }
        hand := hand + [deck[cardIndex]];
        assert deck[7 * k..cardIndex + 1] == deck[7 * k..cardIndex] + [deck[cardIndex]];
        cardIndex := cardIndex + 1;
      }
      HandAtRun(deck, k);
      g.players := g.players[k := g.players[k].(hand := hand)];
    }
    assert g.players == DealtSevens(before, deck);
    error := None;
  }

  /** submitCreateGame. The caller's authentication is a flag, the user table a map, the
      stored wonders and cards are parameters, and so are the two shuffles and the face
      choice. No game exists unless the checks pass; then the game keeps the users and
      player states the creation reached. */
  method SubmitCreateGame(authenticated: bool, playerIds: Option<seq<int>>, id: int, users: map<int, User>,
                          wonders: seq<Wonder>, names: seq<string>, pick: nat -> nat, catalogue: seq<Card>,
                          shuffle: seq<Card> -> seq<Card>)
    returns (view: CreateView, g: Game?)
    requires EveryNameHasFaces(names, wonders)
    ensures !authenticated ==> view == RedirectToLogin && g == null
    ensures authenticated && !ValidSelection(playerIds) ==> view == CreateGamePage(PlayerCountError) && g == null
    ensures authenticated && ValidSelection(playerIds) ==>
      var ids := playerIds.value;
      var r := CreateSpec(id, ids, users, wonders, names, pick,
                          shuffle(CardActionService.Suitable(catalogue, AGE_I, |ids|)));
      g != null && fresh(g) && g.id == id && g.status == WAITING && g.nbrPlayers == Some(|ids|)
      && g.currentAge == None && view == r.0 && g.users == r.1 && g.players == r.2
  {
    if !authenticated {
      return RedirectToLogin, null;
    }
    if playerIds.None? || |playerIds.value| < 3 || |playerIds.value| > 7 {
      return CreateGamePage(PlayerCountError), null;
    }
    var ids := playerIds.value;
    var game := GameService.CreateGame(id, Some(|ids|));
    g := game;
    var deck := shuffle(CardActionService.Suitable(catalogue, AGE_I, |ids|));
    view := SeatAndDeal(game, ids, users, wonders, names, pick, deck);
  }

  /** The seating and the dealing of submitCreateGame on the new game; the view and the
      game's users and player states are those the creation reaches. */
  method SeatAndDeal(game: Game, ids: seq<int>, users: map<int, User>, wonders: seq<Wonder>,
                     names: seq<string>, pick: nat -> nat, deck: seq<Card>)
    returns (view: CreateView)
    requires EveryNameHasFaces(names, wonders)
    requires game.status == WAITING && game.users == [] && game.players == []
    modifies game`users, game`players
    ensures (view, game.users, game.players) == CreateSpec(game.id, ids, users, wonders, names, pick, deck)
  {
    var error := SeatKnownUsers(game, ids, users, wonders, names, pick);
    if error.Some? {
      return CreateFailed(error.value);
    }
    error := DealSevens(game, deck);
    if error.Some? {
      return CreateFailed(error.value);
    }
    view := RedirectToPlay(game.id);
  }

  /** The runs j0, j0 + 1, ..., j0 + n - 1 of the deck, one after another. */
  function Runs(deck: seq<Card>, j0: nat, n: nat): seq<Card>
    decreases n
  {
    if n == 0 then [] else HandAt(deck, j0) + Runs(deck, j0 + 1, n - 1)
  }

  /** Consecutive runs make up the part of the deck they cover. */
  lemma {:induction false} RunsTile(deck: seq<Card>, j0: nat, n: nat)
    decreases n
    ensures RunStart(deck, j0) <= RunStart(deck, j0 + n)
    ensures Runs(deck, j0, n) == deck[RunStart(deck, j0)..RunStart(deck, j0 + n)]
  {
    RunStartGrows(deck, j0, j0 + n);
    if n > 0 {
      var a, b, c := RunStart(deck, j0), RunStart(deck, j0 + 1), RunStart(deck, j0 + n);
      RunStartGrows(deck, j0, j0 + 1);
      RunsTile(deck, j0 + 1, n - 1);
      assert deck[a..c] == deck[a..b] + deck[b..c];
    }
  }

  /** Hands laid out as consecutive runs of the deck, from run j0 on, are those runs. */
  lemma {:induction false} HandsAreRuns(players: seq<PlayerState>, deck: seq<Card>, j0: nat)
    requires forall j :: 0 <= j < |players| ==> players[j].hand == HandAt(deck, j0 + j)
    ensures AllHands(players) == Runs(deck, j0, |players|)
  {
    if players != [] {
      forall j | 0 <= j < |players| - 1 ensures players[1..][j].hand == HandAt(deck, j0 + 1 + j) {
        assert players[1..][j] == players[j + 1];
      }
      HandsAreRuns(players[1..], deck, j0 + 1);
      assert players[0].hand == HandAt(deck, j0 + 0);
      assert AllHands(players) == players[0].hand + AllHands(players[1..]);
    }
  }

  /** Unless the name lookup throws, the player states are the named seats with their
      runs of the deck, and together the hands are the part of the deck the runs cover. */
  lemma CreatedHands(gameId: int, playerIds: seq<int>, users: map<int, User>, wonders: seq<Wonder>,
                     names: seq<string>, pick: nat -> nat, deck: seq<Card>)
    requires EveryNameHasFaces(names, wonders)
    requires GameInit.KnownUsers(playerIds, users) == [] || names != []
    ensures var seated := GameInit.KnownUsers(playerIds, users);
      var players := CreateSpec(gameId, playerIds, users, wonders, names, pick, deck).2;
      players == DealtSevens(NamedSeats(gameId, seated, wonders, names, pick), deck)
      && AllHands(players) == deck[..Min(7 * |seated|, Whole(deck))]
  {
    var seated := GameInit.KnownUsers(playerIds, users);
    DealtRuns(NamedSeats(gameId, seated, wonders, names, pick), deck);
  }

  /** Dealing to seats with empty hands hands out the deck from its start, run by run. */
  lemma DealtRuns(seats: seq<PlayerState>, deck: seq<Card>)
    requires forall j :: 0 <= j < |seats| ==> seats[j].hand == []
    ensures AllHands(DealtSevens(seats, deck)) == deck[..Min(7 * |seats|, Whole(deck))]
  {
    var players := DealtSevens(seats, deck);
    forall j | 0 <= j < |players| ensures players[j].hand == HandAt(deck, 0 + j) {
      assert seats[j].hand + HandAt(deck, j) == HandAt(deck, j);
    }
    HandsAreRuns(players, deck, 0);
    RunsTile(deck, 0, |players|);
  }

  /** A deck holding seven cards for every seat gives each seat seven cards, and the
      hands are the first seven cards per seat of the deck. */
  lemma FullDeal(seats: seq<PlayerState>, deck: seq<Card>)
    requires forall j :: 0 <= j < |seats| ==> seats[j].hand == []
    requires 7 * |seats| <= |deck|
    ensures forall j :: 0 <= j < |seats| ==> |DealtSevens(seats, deck)[j].hand| == 7
    ensures AllHands(DealtSevens(seats, deck)) == deck[..7 * |seats|]
  {
    DealtRuns(seats, deck);
    assert Min(7 * |seats|, Whole(deck)) == 7 * |seats|;
    forall j | 0 <= j < |seats| ensures |DealtSevens(seats, deck)[j].hand| == 7 {
      assert DealtSevens(seats, deck)[j].hand == seats[j].hand + HandAt(deck, j);
      HandAtRun(deck, j);
    }
  }

  /** A successful creation seats every known user in request order at positions 0, 1,
      2, ..., names each seat after its place in the shuffled name list (all different
      while there are no more users than names), gives every seat seven cards, and deals
      the first 7 * n cards of the deck, each once. */
  lemma CreatedGameSeatsAndDeals(gameId: int, playerIds: seq<int>, users: map<int, User>, wonders: seq<Wonder>,
                                 names: seq<string>, pick: nat -> nat, deck: seq<Card>)
    requires IsNameOrder(names, wonders)
    requires CreateSpec(gameId, playerIds, users, wonders, names, pick, deck).0 == RedirectToPlay(gameId)
    ensures var seated := GameInit.KnownUsers(playerIds, users);
      var players := CreateSpec(gameId, playerIds, users, wonders, names, pick, deck).2;
      |players| == |seated| && 0 <= 7 * |seated| <= |deck|
      && (forall k :: 0 <= k < |players| ==>
            players[k].position == k && players[k].userId == seated[k].id
            && players[k].wonderName == Some(AssignedWonder(wonders, names, pick, k).name)
            && AssignedWonder(wonders, names, pick, k).name == names[k % |names|]
            && |players[k].hand| == 7)
      && (|seated| <= |names| ==>
            forall k, l :: 0 <= k < l < |players| ==> players[k].wonderName != players[l].wonderName)
      && AllHands(players) == deck[..7 * |seated|]
  {
    var seated := GameInit.KnownUsers(playerIds, users);
    var players := CreateSpec(gameId, playerIds, users, wonders, names, pick, deck).2;
    var named := NamedSeats(gameId, seated, wonders, names, pick);
    assert players == DealtSevens(named, deck);
    FullDeal(named, deck);
    forall k | 0 <= k < |players|
      ensures players[k].position == k && players[k].userId == seated[k].id
      ensures players[k].wonderName == Some(AssignedWonder(wonders, names, pick, k).name)
    {
      assert named[k] == NamedSeat(gameId, seated[k], k, wonders, names, pick);
    }
    if |seated| <= |names| {
      forall k, l | 0 <= k < l < |players|
        ensures players[k].wonderName != players[l].wonderName
      {
        DistinctPicks(wonders, names, pick, k, l);
      }
    }
  }

  /** When the shuffled deck is a permutation of the suitable cards, every card dealt is
      an Age I card for at most the requested number of players, and no card is dealt
      more often than the stored cards hold it. */
  lemma DealtCardsSuitable(gameId: int, playerIds: seq<int>, users: map<int, User>, wonders: seq<Wonder>,
                           names: seq<string>, pick: nat -> nat, catalogue: seq<Card>,
                           shuffle: seq<Card> -> seq<Card>)
    requires EveryNameHasFaces(names, wonders) && IsShuffle(shuffle)
    ensures var suitable := CardActionService.Suitable(catalogue, AGE_I, |playerIds|);
      var dealt := AllHands(CreateSpec(gameId, playerIds, users, wonders, names, pick, shuffle(suitable)).2);
      multiset(dealt) <= multiset(suitable)
      && forall c :: c in dealt ==> c in catalogue && c.age == AGE_I && c.minPlayerCount <= |playerIds|
  {
    var suitable := CardActionService.Suitable(catalogue, AGE_I, |playerIds|);
    var deck := shuffle(suitable);
    var dealt := AllHands(CreateSpec(gameId, playerIds, users, wonders, names, pick, deck).2);
    DealtFromDeck(gameId, playerIds, users, wonders, names, pick, deck);
    DrawnFrom(dealt, deck, suitable);
  }

  /** Cards taken from a permutation of a list are taken from the list. */
  lemma DrawnFrom(dealt: seq<Card>, deck: seq<Card>, suitable: seq<Card>)
    requires multiset(dealt) <= multiset(deck) && multiset(deck) == multiset(suitable)
    ensures multiset(dealt) <= multiset(suitable) && forall c :: c in dealt ==> c in suitable
  {
    forall c | c in dealt ensures c in suitable {
      assert c in multiset(suitable);
    }
  }

  /** The cards dealt are taken from the deck, none more often than the deck holds it. */
  lemma DealtFromDeck(gameId: int, playerIds: seq<int>, users: map<int, User>, wonders: seq<Wonder>,
                      names: seq<string>, pick: nat -> nat, deck: seq<Card>)
    requires EveryNameHasFaces(names, wonders)
    ensures multiset(AllHands(CreateSpec(gameId, playerIds, users, wonders, names, pick, deck).2)) <= multiset(deck)
  {
    if GameInit.KnownUsers(playerIds, users) != [] && names == [] {
      NoNamesFails(gameId, playerIds, users, wonders, pick, deck);
    } else {
      CreatedHands(gameId, playerIds, users, wonders, names, pick, deck);
      PrefixMultiset(deck, Min(7 * |GameInit.KnownUsers(playerIds, users)|, Whole(deck)));
    }
  }

  lemma PrefixMultiset(s: seq<Card>, m: nat)
    requires m <= |s|
    ensures multiset(s[..m]) <= multiset(s)
  {
    assert s == s[..m] + s[m..];
  }

  /** A deck too short for seven cards per seat stops the creation with the list access
      error: the seats whose seven cards the deck holds keep them, in order, and every
      other seat keeps an empty hand, so the cards of the incomplete last run are dealt to
      no one. */
  lemma ShortDeckFails(gameId: int, playerIds: seq<int>, users: map<int, User>, wonders: seq<Wonder>,
                       names: seq<string>, pick: nat -> nat, deck: seq<Card>)
    requires EveryNameHasFaces(names, wonders) && names != []
    requires |deck| < 7 * |GameInit.KnownUsers(playerIds, users)|
    ensures var r := CreateSpec(gameId, playerIds, users, wonders, names, pick, deck);
      r.0 == CreateFailed(IndexOutOfBounds) && AllHands(r.2) == deck[..Whole(deck)]
      && forall j :: 0 <= j < |r.2| ==> (|r.2[j].hand| == 7 <==> 7 * (j + 1) <= |deck|) && (|r.2[j].hand| == 7 || r.2[j].hand == [])
  {
    var seated := GameInit.KnownUsers(playerIds, users);
    CreatedHands(gameId, playerIds, users, wonders, names, pick, deck);
    DealtHandSizes(NamedSeats(gameId, seated, wonders, names, pick), deck);
  }

  /** Dealing to empty hands gives a seat seven cards exactly when the deck holds its
      whole run, and none otherwise. */
  lemma DealtHandSizes(seats: seq<PlayerState>, deck: seq<Card>)
    requires forall j :: 0 <= j < |seats| ==> seats[j].hand == []
    ensures var players := DealtSevens(seats, deck);
      forall j :: 0 <= j < |players| ==> (|players[j].hand| == 7 <==> 7 * (j + 1) <= |deck|) && (|players[j].hand| == 7 || players[j].hand == [])
  {
    var players := DealtSevens(seats, deck);
    forall j | 0 <= j < |players|
      ensures (|players[j].hand| == 7 <==> 7 * (j + 1) <= |deck|) && (|players[j].hand| == 7 || players[j].hand == [])
    {
      assert players[j].hand == seats[j].hand + HandAt(deck, j);
      HandAtRun(deck, j);
    }
  }

  /** Without board names the creation stops at the first known user, who is seated
      without a board name; with no known user at all the game is created empty. */
  lemma NoNamesFails(gameId: int, playerIds: seq<int>, users: map<int, User>, wonders: seq<Wonder>,
                     pick: nat -> nat, deck: seq<Card>)
    requires EveryNameHasFaces([], wonders)
    ensures var seated := GameInit.KnownUsers(playerIds, users);
      var r := CreateSpec(gameId, playerIds, users, wonders, [], pick, deck);
      (seated != [] ==>
         r.0 == CreateFailed(Arithmetic) && |r.1| == 1 && |r.2| == 1 && r.2[0].wonderName == None
         && AllHands(r.2) == [])
      && (seated == [] ==> r.0 == RedirectToPlay(gameId) && r.1 == [] && r.2 == [])
  {
    var r := CreateSpec(gameId, playerIds, users, wonders, [], pick, deck);
    if GameInit.KnownUsers(playerIds, users) != [] {
      assert r.2[1..] == [];
    }
  }
}
