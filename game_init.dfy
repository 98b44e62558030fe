/** Setting up a new game: seating the known users at consecutive positions, linking
    every seat to its two neighbours around the table, assigning the wonders and dealing
    the first age. */
module GameInit {
  import opened Common
  import opened Ages
  import opened Entities
  import opened GameEntities
  import opened CardDistribution
  import opened WonderService

  /** The position to the left of p at a table of n seats, (p - 1 + n) % n in Java. */
  function LeftPosition(p: int, n: int): (l: int)
    requires n > 0
    ensures 0 <= p < n ==> l == if p == 0 then n - 1 else p - 1
  {
    JavaRem(p - 1 + n, n)
  }

  /** The position to the right of p at a table of n seats, (p + 1) % n in Java. */
  function RightPosition(p: int, n: int): (r: int)
    requires n > 0
    ensures 0 <= p < n ==> r == if p == n - 1 then 0 else p + 1
  {
    JavaRem(p + 1, n)
  }

  /** Around the table, the right neighbour's left neighbour is the player itself, and
      the other way round. */
  lemma NeighbourPositionsInverse(p: int, n: int)
    requires 0 <= p < n
    ensures LeftPosition(RightPosition(p, n), n) == p
    ensures RightPosition(LeftPosition(p, n), n) == p
    ensures 0 <= LeftPosition(p, n) < n && 0 <= RightPosition(p, n) < n
  {
  }

  /** The users that exist among the requested ids, in request order
      (findByIdIfExists skipping the unknown ids). */
  function KnownUsers(playerIds: seq<int>, users: map<int, User>): (r: seq<User>)
    ensures |r| <= |playerIds|
    ensures forall id :: id in playerIds && id in users ==> users[id] in r
    ensures forall u :: u in r ==> exists id :: id in playerIds && id in users && users[id] == u
    decreases |playerIds|
  {
    if playerIds == [] then []
    else
      var init := playerIds[..|playerIds| - 1];
      var last := playerIds[|playerIds| - 1];
      assert playerIds == init + [last];
      var r := KnownUsers(init, users) + (if last in users then [users[last]] else []);
      assert forall id :: id in playerIds ==> id in init || id == last;
      r
  }

  /** The player states created for the seated users: seat k is at position k. */
  function Seats(gameId: int, seated: seq<User>): (r: seq<PlayerState>)
    ensures |r| == |seated|
  {
    seq(|seated|, k requires 0 <= k < |seated| => NewPlayerState(k, gameId, seated[k].id, k))
  }

  /** The seated users sit at positions 0, 1, 2, ... without gaps, each seat holding the
      user it was created for. */
  lemma SeatsConsecutive(gameId: int, playerIds: seq<int>, users: map<int, User>)
    ensures var r := Seats(gameId, KnownUsers(playerIds, users));
      forall k :: 0 <= k < |r| ==>
        r[k].position == k && r[k].gameId == Some(gameId)
        && exists id :: id in playerIds && id in users && users[id].id == r[k].userId
  {
    var seated := KnownUsers(playerIds, users);
    var r := Seats(gameId, seated);
    forall k | 0 <= k < |r|
      ensures r[k].position == k && r[k].gameId == Some(gameId)
      ensures exists id :: id in playerIds && id in users && users[id].id == r[k].userId
    {
      assert r[k] == NewPlayerState(k, gameId, seated[k].id, k);
      assert seated[k] in seated;
      var id :| id in playerIds && id in users && users[id] == seated[k];
      assert users[id].id == r[k].userId;
    }
  }

  /** The loop of startGame that adds every known user to the game and creates its
      player state at the next free position. addUserToGame refuses a game that is no
      longer WAITING, at the first known user; the transaction then leaves the game
      unchanged. */
  method SeatPlayers(g: Game, playerIds: seq<int>, users: map<int, User>) returns (error: Option<JavaException>)
    modifies g`users, g`players
    ensures var seated := KnownUsers(playerIds, users);
      if g.status != WAITING && seated != [] then
        error == Some(IllegalState("Game has already started"))
        && g.users == old(g.users) && g.players == old(g.players)
      else
        error == None && g.users == old(g.users) + seated && g.players == old(g.players) + Seats(g.id, seated)
  {
    var position := 0;
    for i := 0 to |playerIds|
      invariant position == |KnownUsers(playerIds[..i], users)|
      invariant g.users == old(g.users) + KnownUsers(playerIds[..i], users)
      invariant g.players == old(g.players) + Seats(g.id, KnownUsers(playerIds[..i], users))
      invariant g.status != WAITING ==> KnownUsers(playerIds[..i], users) == []
    {
      assert playerIds[..i + 1][..i] == playerIds[..i];
      if playerIds[i] in users {
        var user := users[playerIds[i]];
        if g.status != WAITING {
          assert KnownUsers(playerIds, users) != [] by {
            assert user in KnownUsers(playerIds, users);
          }
          return Some(IllegalState("Game has already started"));
        }
        ghost var before := KnownUsers(playerIds[..i], users);
        g.AddUser(user);
        g.players := g.players + [NewPlayerState(position, g.id, user.id, position)];
        position := position + 1;
        assert Seats(g.id, before + [user]) == Seats(g.id, before) + [NewPlayerState(|before|, g.id, user.id, |before|)];
      }
    }
    assert playerIds[..|playerIds|] == playerIds;
    error := None;
  }

  /** The seat found by position (findByGameIdAndPosition): the first seat holding it. */
  function SeatAt(players: seq<PlayerState>, position: int): (r: Option<nat>)
    ensures r.Some? ==> r.value < |players| && players[r.value].position == position
    ensures r.None? <==> forall k :: 0 <= k < |players| ==> players[k].position != position
  {
    if players == [] then None
    else if players[0].position == position then Some(0)
    else match SeatAt(players[1..], position)
      case None =>
        assert forall k :: 1 <= k < |players| ==> players[k] == players[1..][k - 1];
        None
      case Some(k) => Some(k + 1)
  }

  /** Every seat linked to the seats at the positions before and after its own. */
  function LinkNeighbours(players: seq<PlayerState>): (r: seq<PlayerState>)
    ensures |r| == |players|
  {
    var n := |players|;
    seq(n, k requires 0 <= k < n =>
      players[k].(leftNeighbor := SeatAt(players, LeftPosition(players[k].position, n)),
                  rightNeighbor := SeatAt(players, RightPosition(players[k].position, n))))
  }

  /** setupNeighborRelationships. The lookups by position see the positions, which the
      loop does not change. */
  method SetupNeighbours(g: Game)
    modifies g`players
    ensures g.players == LinkNeighbours(old(g.players))
  {
    var seated := g.players;
    var n := |g.players|;
    for k := 0 to n
      invariant |g.players| == n
      invariant forall j :: 0 <= j < k ==> g.players[j] == LinkNeighbours(seated)[j]
      invariant forall j :: k <= j < n ==> g.players[j] == seated[j]
    {
      var position := g.players[k].position;
      var left := SeatAt(seated, LeftPosition(position, n));
      var right := SeatAt(seated, RightPosition(position, n));
      g.players := g.players[k := g.players[k].(leftNeighbor := left, rightNeighbor := right)];
    }
  }

  /** Seat k sits at position k. */
  predicate SeatedInOrder(players: seq<PlayerState>)
  {
    forall k :: 0 <= k < |players| ==> players[k].position == k
  }

  /** At a table seated in order, every seat's neighbours are the seats before and after
      it, circularly, so that the right neighbour's left neighbour is the seat itself and
      the other way round. */
  lemma NeighboursAroundTable(players: seq<PlayerState>)
    requires SeatedInOrder(players)
    ensures var r := LinkNeighbours(players);
      var n := |r|;
      forall k :: 0 <= k < n ==>
        HasNeighbours(r, k)
        && r[k].leftNeighbor == Some(if k == 0 then n - 1 else k - 1)
        && r[k].rightNeighbor == Some(if k == n - 1 then 0 else k + 1)
        && r[if k == n - 1 then 0 else k + 1].leftNeighbor == Some(k)
        && r[if k == 0 then n - 1 else k - 1].rightNeighbor == Some(k)
  {
    var n := |players|;
    var r := LinkNeighbours(players);
    forall k | 0 <= k < n
      ensures r[k].leftNeighbor == Some(if k == 0 then n - 1 else k - 1)
      ensures r[k].rightNeighbor == Some(if k == n - 1 then 0 else k + 1)
    {
      SeatAtInOrder(players, LeftPosition(k, n));
      SeatAtInOrder(players, RightPosition(k, n));
    }
  }

  lemma SeatAtInOrder(players: seq<PlayerState>, p: int)
    requires SeatedInOrder(players) && 0 <= p < |players|
    ensures SeatAt(players, p) == Some(p)
  {
    var r := SeatAt(players, p);
    assert players[p].position == p;
  }

  /** A table set up for play, before the deal: seat k is at position k and holds the
      k-th seated user, its neighbours are the seats before and after it, and it has
      the board the assignment gives it, at stage 0. */
  ghost predicate Prepared(players: seq<PlayerState>, seated: seq<User>, wonders: seq<Wonder>,
                           names: seq<string>, pick: nat -> nat)
    requires IsNameOrder(names, wonders)
  {
    var n := |seated|;
    |players| == n && (n > 0 ==> names != [])
    && forall k :: 0 <= k < n ==>
      players[k].position == k && players[k].userId == seated[k].id
      && players[k].leftNeighbor == Some(if k == 0 then n - 1 else k - 1)
      && players[k].rightNeighbor == Some(if k == n - 1 then 0 else k + 1)
      && players[k].wonder == Some(AssignedWonder(wonders, names, pick, k))
      && players[k].wonderStage == 0
  }

  /** The neighbour links of freshly created seats. */
  lemma LinkedSeats(gameId: int, seated: seq<User>)
    ensures var r := LinkNeighbours(Seats(gameId, seated));
      var n := |seated|;
      |r| == n && forall k :: 0 <= k < n ==>
        r[k].position == k && r[k].userId == seated[k].id
        && r[k].leftNeighbor == Some(if k == 0 then n - 1 else k - 1)
        && r[k].rightNeighbor == Some(if k == n - 1 then 0 else k + 1)
  {
    NeighboursAroundTable(Seats(gameId, seated));
  }

  /** The wonder assignment keeps positions, users and neighbours. */
  lemma AssignKeepsSeats(players: seq<PlayerState>, wonders: seq<Wonder>, names: seq<string>, pick: nat -> nat)
    requires IsNameOrder(names, wonders) && AssignSpec(players, wonders, names, pick).Ok?
    ensures var r := AssignSpec(players, wonders, names, pick).value;
      |r| == |players| && (players != [] ==> names != [])
      && forall k :: 0 <= k < |r| ==>
        r[k].position == players[k].position && r[k].userId == players[k].userId
        && r[k].leftNeighbor == players[k].leftNeighbor && r[k].rightNeighbor == players[k].rightNeighbor
        && r[k].wonder == Some(AssignedWonder(wonders, names, pick, k)) && r[k].wonderStage == 0
  {
  }

  /** The deal keeps a prepared table prepared. */
  lemma DealKeepsPrepared(players: seq<PlayerState>, seated: seq<User>, wonders: seq<Wonder>, names: seq<string>,
                          pick: nat -> nat, catalogue: seq<Card>, age: Age, shuffle: seq<Card> -> seq<Card>)
    requires IsNameOrder(names, wonders) && Prepared(players, seated, wonders, names, pick)
    requires DistributeSpec(players, catalogue, age, shuffle).Ok?
    ensures var r := DistributeSpec(players, catalogue, age, shuffle).value;
      Prepared(r, seated, wonders, names, pick) && forall k :: 0 <= k < |r| ==> |r[k].hand| == HandSize
  {
    DealPartitionsDeck(players, catalogue, age, shuffle);
  }

  /** Linking and assigning freshly created seats prepares the table. */
  lemma AssignPrepares(gameId: int, seated: seq<User>, wonders: seq<Wonder>, names: seq<string>, pick: nat -> nat)
    requires IsNameOrder(names, wonders)
    requires AssignSpec(LinkNeighbours(Seats(gameId, seated)), wonders, names, pick).Ok?
    ensures Prepared(AssignSpec(LinkNeighbours(Seats(gameId, seated)), wonders, names, pick).value,
                     seated, wonders, names, pick)
  {
    LinkedSeats(gameId, seated);
    AssignKeepsSeats(LinkNeighbours(Seats(gameId, seated)), wonders, names, pick);
  }

  /** The seating, the neighbour links and the wonder assignment of startGame, on a
      fresh game; an exception leaves the transaction to roll back. */
  method PrepareTable(g: Game, playerIds: seq<int>, users: map<int, User>, wonders: seq<Wonder>,
                      names: seq<string>, pick: nat -> nat)
    returns (error: Option<JavaException>)
    requires IsNameOrder(names, wonders)
    requires g.status == WAITING && g.users == [] && g.players == []
    modifies g`users, g`players
    ensures error.None? ==>
      g.users == KnownUsers(playerIds, users) && Prepared(g.players, g.users, wonders, names, pick)
    ensures error.Some? ==> error == Some(Arithmetic) && names == [] && KnownUsers(playerIds, users) != []
  {
    error := SeatPlayers(g, playerIds, users);
    assert g.users == KnownUsers(playerIds, users) && g.players == Seats(g.id, g.users);
    SetupNeighbours(g);
    ghost var linked := g.players;
    assert linked == LinkNeighbours(Seats(g.id, g.users));
    error := AssignWonders(g, wonders, names, pick);
    if error.None? {
      assert AssignSpec(linked, wonders, names, pick).value == g.players;
      AssignPrepares(g.id, g.users, wonders, names, pick);
    }
  }

  /** The deal of startGame on a prepared table: the table stays prepared and every seat
      holds a full hand. */
  method DealPrepared(g: Game, ghost seated: seq<User>, wonders: seq<Wonder>, names: seq<string>,
                      pick: nat -> nat, catalogue: seq<Card>, shuffle: seq<Card> -> seq<Card>)
    returns (error: Option<JavaException>)
    requires IsNameOrder(names, wonders) && g.currentAge == Some(AGE_I)
    requires Prepared(g.players, seated, wonders, names, pick)
    modifies g`players
    ensures error.None? ==>
      Prepared(g.players, seated, wonders, names, pick)
      && forall k :: 0 <= k < |g.players| ==> |g.players[k].hand| == HandSize
  {
    ghost var prepared := g.players;
    error := DistributeCards(g, catalogue, shuffle);
    if error.None? {
      DealKeepsPrepared(prepared, seated, wonders, names, pick, catalogue, AGE_I, shuffle);
    }
  }

  /** GameInitManager.startGame on a fresh game: the game records the requested number
      of players and Age I, seats the known users, links the neighbours, assigns the
      wonders, deals seven Age I cards to every seat and ends STARTING at the given
      time. An exception rolls the whole transaction back, so that no game is created. */
  method StartNewGame(id: int, playerIds: seq<int>, users: map<int, User>, wonders: seq<Wonder>,
                      names: seq<string>, pick: nat -> nat, catalogue: seq<Card>,
                      shuffle: seq<Card> -> seq<Card>, now: int)
    returns (g: Game, error: Option<JavaException>)
    requires IsNameOrder(names, wonders)
    ensures fresh(g)
    ensures error.None? ==>
      g.status == STARTING && g.startedAt == Some(now) && g.currentAge == Some(AGE_I)
      && g.nbrPlayers == Some(|playerIds|) && g.users == KnownUsers(playerIds, users)
      && Prepared(g.players, g.users, wonders, names, pick)
      && forall k :: 0 <= k < |g.players| ==> |g.players[k].hand| == HandSize
  {
    g := new Game(id);
    g.nbrPlayers := Some(|playerIds|);
    g.currentAge := Some(AGE_I);
    error := PrepareTable(g, playerIds, users, wonders, names, pick);
    if error.Some? {
      return;
    }
    error := DealPrepared(g, g.users, wonders, names, pick, catalogue, shuffle);
    if error.Some? {
      return;
    }
    g.status := STARTING;
    g.startedAt := Some(now);
  }
}
