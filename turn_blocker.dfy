/** The turn blocker: a flag that remembers whether the page is blocking the player
    after their move. Each poll of the server's has-played-this-turn answer may show the
    overlay (rising edge), or hide it and reload the game data (falling edge); a failed
    poll changes nothing. The page's visible effects are recorded as a list of events. */
module TurnBlocker {
  import opened Common

  /** What the page does besides flipping the flag. */
  datatype Event = ShowOverlay | HideOverlay | Reload

  /** How one poll ended: a non-OK status, an exception (network or JSON), or the
      hasPlayedThisTurn value read as a JavaScript truth value. */
  datatype Poll = NotOk(status: int) | Failed | Answered(hasPlayed: bool)

  /** checkHasPlayedThisTurn on the flag: the new flag and the events it fires; the
      reload fires only when the page defines reloadAllGameData. */
  function Check(blocking: bool, poll: Poll, reloadDefined: bool): (r: (bool, seq<Event>))
  {
    match poll
    case NotOk(_) => (blocking, [])
    case Failed => (blocking, [])
    case Answered(hasPlayed) =>
      if hasPlayed && !blocking then (true, [ShowOverlay])
      else if !hasPlayed && blocking then (false, [HideOverlay] + (if reloadDefined then [Reload] else []))
      else (blocking, [])
  }

  /** The latch: the flag follows the answer, a failed poll keeps it, the overlay is shown
      only on a rising edge and hidden (with at most one reload) only on a falling edge. */
  lemma CheckIsEdgeTriggered(blocking: bool, poll: Poll, reloadDefined: bool)
    ensures var (after, events) := Check(blocking, poll, reloadDefined);
      (poll.Answered? ==> after == poll.hasPlayed)
      && (!poll.Answered? ==> after == blocking && events == [])
      && (ShowOverlay in events <==> !blocking && after)
      && (HideOverlay in events <==> blocking && !after)
      && (Reload in events <==> blocking && !after && reloadDefined)
      && |events| <= 2
  {
  }

  /** Polling the same answer again fires nothing and keeps the flag. */
  lemma RepeatedStatusIsQuiet(blocking: bool, poll: Poll, reloadDefined: bool, reloadDefined2: bool)
    ensures var (after, _) := Check(blocking, poll, reloadDefined);
      Check(after, poll, reloadDefined2) == (after, [])
  {
  }

  /** The flag a history of events leads to from an unblocked page, if the history is
      one the latch can produce: shows and hides alternate, starting with a show, and a
      reload only ever directly follows a hide. */
  function Replay(events: seq<Event>): (r: Option<bool>)
  {
    if events == [] then Some(false)
    else
      var last := events[|events| - 1];
      var before := events[..|events| - 1];
      match Replay(before)
      case None => None
      case Some(blocking) =>
        match last
        case ShowOverlay => if blocking then None else Some(true)
        case HideOverlay => if blocking then Some(false) else None
        case Reload => if before != [] && before[|before| - 1] == HideOverlay then Some(blocking) else None
  }

  /** One poll's events extend a well-formed history to one that leads to the new flag. */
  lemma {:induction false} CheckKeepsHistory(history: seq<Event>, blocking: bool, poll: Poll, reloadDefined: bool)
    requires Replay(history) == Some(blocking)
    ensures var (after, events) := Check(blocking, poll, reloadDefined);
      Replay(history + events) == Some(after)
  {
    var (after, events) := Check(blocking, poll, reloadDefined);
    if events == [ShowOverlay] || events == [HideOverlay] {
      var h := history + events;
      assert h[..|h| - 1] == history;
    } else if events == [HideOverlay, Reload] {
      var h1 := history + [HideOverlay];
      assert h1[..|h1| - 1] == history;
      var h := history + events;
      assert h == h1 + [Reload];
      assert h[..|h| - 1] == h1;
    } else {
      assert events == [];
      assert history + events == history;
    }
  }

  class Blocker {
    var isBlockingTurn: bool
    /** What the page has done so far. */
    var events: seq<Event>

    predicate Valid()
      reads this
    {
      Replay(events) == Some(isBlockingTurn)
    }

    constructor ()
      ensures Valid() && !isBlockingTurn && events == []
    {
      isBlockingTurn := false;
      events := [];
    }

    /** checkHasPlayedThisTurn: a failed poll returns early; an answer flips the flag
        on an edge and fires that edge's events. */
    method CheckHasPlayedThisTurn(poll: Poll, reloadDefined: bool)
      requires Valid()
      modifies this
      ensures Valid()
      ensures var (after, fired) := Check(old(isBlockingTurn), poll, reloadDefined);
        isBlockingTurn == after && events == old(events) + fired
    {
      CheckKeepsHistory(events, isBlockingTurn, poll, reloadDefined);
      if !poll.Answered? {
        assert events + [] == events;
        return;
      }
      var hasPlayed := poll.hasPlayed;
      if hasPlayed && !isBlockingTurn {
        events := events + [ShowOverlay];
        isBlockingTurn := true;
      } else if !hasPlayed && isBlockingTurn {
        events := events + [HideOverlay];
        isBlockingTurn := false;
        if reloadDefined {
          events := events + [Reload];
        }
      } else {
        assert events + [] == events;
      }
    }
  }
}
