/** The browser's hand and its selection latch. The page holds the hand as a list of card
    image names and at most one selected position; the play, build and discard buttons
    send the selected card to the server and then update the hand. Two scripts do this:
    the card handler keeps the hand when the server refuses, the older page script
    removes the card whatever the answer. The server's answer is a parameter. */
module HandSelection {
  import opened Common

  /** The three buttons and the action name each sends. */
  datatype Action = Play | Build | Discard

  function ActionName(a: Action): (name: string)
  {
    match a case Play => "play" case Build => "build" case Discard => "discard"
  }

  /** The message shown when a refusal carries none. */
  function DefaultError(a: Action): (message: string)
  {
    match a
    case Play => "This card can't be played"
    case Build => "Can't build wonder with this card"
    case Discard => "Can't discard this card"
  }

  /** The fields of the server's JSON answer the scripts read; an absent message is None. */
  datatype ActionResult = ActionResult(success: bool, message: Option<string>)

  /** How the request ended: the parsed answer, or an exception (network or JSON). */
  datatype Outcome = Answered(data: ActionResult) | Threw

  /** sendCardAction: the parsed answer, or {success: false} when anything throws. */
  function SendCardAction(outcome: Outcome): (r: ActionResult)
  {
    match outcome
    case Answered(data) => data
    case Threw => ActionResult(false, None)
  }

  lemma SendCardActionFallback(outcome: Outcome)
    ensures outcome.Threw? ==> SendCardAction(outcome) == ActionResult(false, None)
    ensures outcome.Answered? ==> SendCardAction(outcome) == outcome.data
    ensures SendCardAction(outcome).success ==> outcome.Answered? && outcome.data.success
  {
  }

  /** `result.message || default`: an absent or empty message gives the default. */
  function ErrorText(a: Action, message: Option<string>): (text: string)
  {
    if message.Some? && message.value != "" then message.value else DefaultError(a)
  }

  lemma ErrorTextNeverEmpty(a: Action, message: Option<string>)
    ensures ErrorText(a, message) != ""
    ensures message.Some? && message.value != "" ==> ErrorText(a, message) == message.value
    ensures message.None? || message.value == "" ==> ErrorText(a, message) == DefaultError(a)
  {
  }

  /** The card the script reads at a position: undefined outside the list. */
  function CardAt(cards: seq<string>, i: int): (c: Option<string>)
  {
    if 0 <= i < |cards| then Some(cards[i]) else None
  }

  /** Array.prototype.splice(i, 1): a negative start counts from the end (floored at 0),
      a start past the end removes nothing. */
  function Splice(cards: seq<string>, i: int): (r: seq<string>)
  {
    var start := if i < 0 then Max(|cards| + i, 0) else Min(i, |cards|);
    if start < |cards| then cards[..start] + cards[start + 1..] else cards
  }

  /** Splicing a position of the list removes exactly that card and keeps the others in
      order; splicing past the end changes nothing. */
  lemma SpliceRemovesOne(cards: seq<string>, i: int)
    ensures 0 <= i < |cards| ==>
      |Splice(cards, i)| == |cards| - 1
      && (forall k :: 0 <= k < i ==> Splice(cards, i)[k] == cards[k])
      && (forall k :: i <= k < |cards| - 1 ==> Splice(cards, i)[k] == cards[k + 1])
      && multiset(Splice(cards, i)) + multiset{cards[i]} == multiset(cards)
    ensures i >= |cards| ==> Splice(cards, i) == cards
  {
    if 0 <= i < |cards| {
      assert cards == cards[..i] + [cards[i]] + cards[i + 1..];
    }
  }

  /** What a button did: nothing (no selection), or the request it sent. */
  datatype Sent = NothingSent | SentRequest(action: string, card: Option<string>)

  class Hand {
    var cards: seq<string>
    var selectedIndex: Option<int>
    var overlayActive: bool
    /** The last error message shown, if any. */
    var shownError: Option<string>

    constructor (dealt: seq<string>)
      ensures cards == dealt && selectedIndex.None? && !overlayActive && shownError.None?
    {
      cards := dealt;
      selectedIndex := None;
      overlayActive := false;
      shownError := None;
    }

    /** selectCard: remembers the position and shows the overlay. */
    method SelectCard(index: int)
      modifies this
      ensures selectedIndex == Some(index) && overlayActive
      ensures cards == old(cards) && shownError == old(shownError)
    {
      selectedIndex := Some(index);
      overlayActive := true;
    }

    /** clearSelection: forgets the position and hides the overlay. */
    method ClearSelection()
      modifies this
      ensures selectedIndex.None? && !overlayActive
      ensures cards == old(cards) && shownError == old(shownError)
    {
      selectedIndex := None;
      overlayActive := false;
    }

    /** playCard, buildWonder and discardCard of the card handler: without a selection
        nothing happens; otherwise the selected card is sent, and on success it leaves the
        hand, on refusal the hand is kept and the error is shown; the selection is cleared
        either way. */
    method Perform(a: Action, result: ActionResult) returns (sent: Sent)
      modifies this
      ensures old(selectedIndex).None? ==>
        sent == NothingSent && cards == old(cards) && selectedIndex == old(selectedIndex)
        && overlayActive == old(overlayActive) && shownError == old(shownError)
      ensures old(selectedIndex).Some? ==>
        sent == SentRequest(ActionName(a), CardAt(old(cards), old(selectedIndex).value))
        && selectedIndex.None? && !overlayActive
        && (result.success ==> cards == Splice(old(cards), old(selectedIndex).value) && shownError == old(shownError))
        && (!result.success ==> cards == old(cards) && shownError == Some(ErrorText(a, result.message)))
    {
      if selectedIndex.None? {
        return NothingSent;
      }
      var i := selectedIndex.value;
      sent := SentRequest(ActionName(a), CardAt(cards, i));
      if result.success {
        cards := Splice(cards, i);
        ClearSelection();
      } else {
        ClearSelection();
        shownError := Some(ErrorText(a, result.message));
      }
    }

    method PlayCard(result: ActionResult) returns (sent: Sent)
      modifies this
      ensures old(selectedIndex).None? ==> sent == NothingSent && cards == old(cards)
      ensures old(selectedIndex).Some? ==>
        sent == SentRequest("play", CardAt(old(cards), old(selectedIndex).value)) && selectedIndex.None?
        && cards == (if result.success then Splice(old(cards), old(selectedIndex).value) else old(cards))
    {
      sent := Perform(Play, result);
    }

    method BuildWonder(result: ActionResult) returns (sent: Sent)
      modifies this
      ensures old(selectedIndex).None? ==> sent == NothingSent && cards == old(cards)
      ensures old(selectedIndex).Some? ==>
        sent == SentRequest("build", CardAt(old(cards), old(selectedIndex).value)) && selectedIndex.None?
        && cards == (if result.success then Splice(old(cards), old(selectedIndex).value) else old(cards))
    {
      sent := Perform(Build, result);
    }

    method DiscardCard(result: ActionResult) returns (sent: Sent)
      modifies this
      ensures old(selectedIndex).None? ==> sent == NothingSent && cards == old(cards)
      ensures old(selectedIndex).Some? ==>
        sent == SentRequest("discard", CardAt(old(cards), old(selectedIndex).value)) && selectedIndex.None?
        && cards == (if result.success then Splice(old(cards), old(selectedIndex).value) else old(cards))
    {
      sent := Perform(Discard, result);
    }

    /** playCard, buildWonder and discardCard of the page script: without a selection
        nothing happens; otherwise the card is sent, its answer ignored, and the card
        leaves the hand whether or not the server accepted it; the selection is cleared. */
    method PerformIgnoringAnswer(a: Action, outcome: Outcome) returns (sent: Sent)
      modifies this
      ensures old(selectedIndex).None? ==>
        sent == NothingSent && cards == old(cards) && selectedIndex == old(selectedIndex)
        && overlayActive == old(overlayActive)
      ensures old(selectedIndex).Some? ==>
        sent == SentRequest(ActionName(a), CardAt(old(cards), old(selectedIndex).value))
        && cards == Splice(old(cards), old(selectedIndex).value)
        && selectedIndex.None? && !overlayActive
      ensures shownError == old(shownError)
    {
      if selectedIndex.None? {
        return NothingSent;
      }
      var i := selectedIndex.value;
      sent := SentRequest(ActionName(a), CardAt(cards, i));
      var answer := SendCardAction(outcome);
      cards := Splice(cards, i);
      ClearSelection();
    }
  }

  /** Each action costs the hand at most one card: exactly one when the hand is not
      empty and the position is not past its end (JavaScript counts a negative position
      from the end, and clamps it to the first card), none otherwise. */
  lemma AtMostOneCardLeaves(cards: seq<string>, i: int)
    ensures |Splice(cards, i)| == |cards| - 1 <==> cards != [] && i < |cards|
    ensures |Splice(cards, i)| != |cards| - 1 ==> Splice(cards, i) == cards
  {
  }
}
