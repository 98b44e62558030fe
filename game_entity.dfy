/** The game record: its lifecycle status, its users, its player states and the
    shared discard pile. The lists are updated in place by the managers. */
module GameEntities {
  import opened Common
  import opened Ages
  import opened Entities

  class Game {
    const id: int
    var status: GameStatus
    var currentAge: Option<Age>
    var currentTurn: int
    var minPlayers: int
    var maxPlayers: int
    var currentPlayerIndex: int
    var nbrPlayers: Option<int>
    var users: seq<User>
    var players: seq<PlayerState>
    var discard: seq<Card>
    var winner: Option<int>  // the user id of the winning player
    var startedAt: Option<int>
    var finishedAt: Option<int>

    /** A new GameEntity with the field initialisers of the entity. */
    constructor (id: int)
      ensures this.id == id
      ensures status == WAITING && currentTurn == 0 && minPlayers == 3 && maxPlayers == 7
      ensures currentPlayerIndex == 0 && currentAge == None && nbrPlayers == None
      ensures users == [] && players == [] && discard == [] && winner == None
      ensures startedAt == None && finishedAt == None
    {
      this.id := id;
      status := WAITING;
      currentAge := None;
      currentTurn := 0;
      minPlayers := 3;
      maxPlayers := 7;
      currentPlayerIndex := 0;
      nbrPlayers := None;
      users := [];
      players := [];
      discard := [];
      winner := None;
      startedAt := None;
      finishedAt := None;
    }

    /** No more users can join. */
    predicate IsFull()
      reads this
    {
      |users| >= maxPlayers
    }

    /** Enough users have joined to start. */
    predicate HasEnoughPlayers()
      reads this
    {
      |users| >= minPlayers
    }

    method AddUser(u: User)
      modifies this`users
      ensures users == old(users) + [u]
    {
      users := users + [u];
    }

    /** Removes the first user equal to u; the others keep their order. */
    method RemoveUser(u: User)
      modifies this`users
      ensures users == RemoveFirst(old(users), u)
      ensures u in old(users) ==> |users| == |old(users)| - 1
      ensures u !in old(users) ==> users == old(users)
    {
      RemoveFirstSpec(users, u);
      users := RemoveFirst(users, u);
    }

    /** Appends the player state and points its back-reference at this game. */
    method AddPlayerState(p: PlayerState) returns (added: PlayerState)
      modifies this`players
      ensures added == p.(gameId := Some(id))
      ensures players == old(players) + [added]
    {
      added := p.(gameId := Some(id));
      players := players + [added];
    }

    /** Removes the first equal player state and clears its back-reference. */
    method RemovePlayerState(p: PlayerState) returns (removed: PlayerState)
      modifies this`players
      ensures removed == p.(gameId := None)
      ensures players == RemoveFirst(old(players), p)
    {
      players := RemoveFirst(players, p);
      removed := p.(gameId := None);
    }
  }

  /** With the default bounds, a full game always has enough players, and neither
      holds of an empty game. */
  lemma FullImpliesEnough(g: Game)
    requires g.minPlayers <= g.maxPlayers
    ensures g.IsFull() ==> g.HasEnoughPlayers()
    ensures g.users == [] && g.minPlayers > 0 ==> !g.IsFull() && !g.HasEnoughPlayers()
  {
  }
}
