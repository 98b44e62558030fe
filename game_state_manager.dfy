/** The lifecycle transitions of a game (GameStateManager): start, finish with scoring
    and a winner, cancel, and pause. The clock is a parameter. */
module GameStateManager {
  import opened Common
  import opened Entities
  import opened GameEntities

  /** startGame: only a WAITING game can start; it becomes STARTING. */
  method StartGame(g: Game, now: int) returns (error: Option<JavaException>)
    modifies g`status, g`startedAt
    ensures old(g.status) == WAITING ==> error == None && g.status == STARTING && g.startedAt == Some(now)
    ensures old(g.status) != WAITING ==>
      error == Some(IllegalState("Game has already started")) && unchanged(g`status, g`startedAt)
  {
    if g.status != WAITING {
      return Some(IllegalState("Game has already started"));
    }
    g.status := STARTING;
    g.startedAt := Some(now);
    error := None;
  }

  /** The end-of-game scoring: every player gains a victory point per three coins. */
  function ScoreCoins(players: seq<PlayerState>): (r: seq<PlayerState>)
    ensures |r| == |players|
  {
    seq(|players|, k requires 0 <= k < |players| =>
      players[k].(victoryPoints := players[k].victoryPoints + JavaDiv(players[k].coins, 3)))
  }

  /** Stream.max with a victory-point comparator: the left operand wins ties, so the
      result is the first seat holding the most victory points. */
  function BestSeat(players: seq<PlayerState>): (w: nat)
    requires players != []
    ensures w < |players|
    ensures forall k :: 0 <= k < |players| ==> players[k].victoryPoints <= players[w].victoryPoints
    ensures forall k :: 0 <= k < w ==> players[k].victoryPoints < players[w].victoryPoints
  {
    if |players| == 1 then 0
    else
      var w := BestSeat(players[..|players| - 1]);
      if players[w].victoryPoints >= players[|players| - 1].victoryPoints then w else |players| - 1
  }

  /** Scoring adds coins/3 (rounded toward zero) to each player and changes nothing
      else; a player with c >= 0 coins gains between (c - 2) / 3 and c / 3 points. */
  lemma ScoreCoinsGains(players: seq<PlayerState>)
    ensures forall k :: 0 <= k < |players| ==>
      ScoreCoins(players)[k] == players[k].(victoryPoints := ScoreCoins(players)[k].victoryPoints)
    ensures forall k :: 0 <= k < |players| && players[k].coins >= 0 ==>
      0 <= 3 * (ScoreCoins(players)[k].victoryPoints - players[k].victoryPoints) <= players[k].coins
      < 3 * (ScoreCoins(players)[k].victoryPoints - players[k].victoryPoints) + 3
  {
  }

  /** finishGame: FINISHED, scored, and the winner is the user of the first seat with the
      most victory points after scoring; a game without players throws
      NoSuchElementException, and the whole change is rolled back. */
  method FinishGame(g: Game, now: int) returns (error: Option<JavaException>)
    modifies g`status, g`finishedAt, g`players, g`winner
    ensures old(g.players) == [] ==> error == Some(NoSuchElement) && unchanged(g`status, g`finishedAt, g`players, g`winner)
    ensures old(g.players) != [] ==>
      error == None && g.status == FINISHED && g.finishedAt == Some(now)
      && g.players == ScoreCoins(old(g.players))
      && g.winner == Some(g.players[BestSeat(g.players)].userId)
  {
    if g.players == [] {
      return Some(NoSuchElement);
    }
    g.status := FINISHED;
    g.finishedAt := Some(now);
    var scored := g.players;
    for k := 0 to |scored|
      invariant |scored| == |g.players|
      invariant forall j :: 0 <= j < k ==> scored[j] == ScoreCoins(g.players)[j]
      invariant forall j :: k <= j < |scored| ==> scored[j] == g.players[j]
    {
      scored := scored[k := scored[k].(victoryPoints := scored[k].victoryPoints + JavaDiv(scored[k].coins, 3))];
    }
    g.players := scored;
    g.winner := Some(scored[BestSeat(scored)].userId);
    error := None;
  }

  /** cancelGame: CANCELLED from any status. */
  method CancelGame(g: Game, now: int)
    modifies g`status, g`finishedAt
    ensures g.status == CANCELLED && g.finishedAt == Some(now)
  {
    g.status := CANCELLED;
    g.finishedAt := Some(now);
  }

  /** setGameToWaiting: WAITING from any status. */
  method SetGameToWaiting(g: Game)
    modifies g`status
    ensures g.status == WAITING
  {
    g.status := WAITING;
  }
}
