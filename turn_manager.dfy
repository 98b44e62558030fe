/** The end-of-turn state machine (TurnManager): once every player has played, the
    turn flags are reset and the pending effects due at the end of a turn are applied;
    then the game either pauses for a build from the discard pile, rotates the hands,
    or closes the age by discarding the last cards and dealing the next age. */
module TurnManager {
  import opened Common
  import opened Ages
  import opened Entities
  import opened GameEntities
  import opened EffectExecutor
  import opened CardDistribution
  import opened GameStateManager
  import opened JavaText

  /** The effect that lets its owner play the last card of an age. */
  const PlayLastCards := "BABYLON_B_STAGE_2_PLAY_LAST_CARDS"

  /** The effect that pauses the game until its owner picks a card from the discard pile. */
  const BuildFromDiscard := "BUILD_FROM_DISCARD"

  /** The player states as a table view of the game: what the end of a turn updates. */
  datatype Table = Table(status: GameStatus, age: Option<Age>, players: seq<PlayerState>, discard: seq<Card>)

  /** allPlayersHavePlayedThisTurn. */
  predicate AllPlayed(players: seq<PlayerState>)
  {
    forall k :: 0 <= k < |players| ==> players[k].hasPlayedThisTurn
  }

  /** The player has a pending effect with this id. */
  predicate HasPending(p: PlayerState, effectId: string)
  {
    exists e :: e in p.pendingEffects && e.effectId == effectId
  }

  /** Some player has a pending effect with this id. */
  predicate AnyHasPending(players: seq<PlayerState>, effectId: string)
  {
    exists k :: 0 <= k < |players| && HasPending(players[k], effectId)
  }

  /** hasPendingBuildFromDiscard: a loop over the players that stops at the first one
      holding a BUILD_FROM_DISCARD effect. */
  method HasPendingBuildFromDiscard(players: seq<PlayerState>) returns (found: bool)
    ensures found <==> AnyHasPending(players, BuildFromDiscard)
  {
    for k := 0 to |players|
      invariant forall j :: 0 <= j < k ==> !HasPending(players[j], BuildFromDiscard)
    {
      var m := 0;
      while m < |players[k].pendingEffects|
        invariant 0 <= m <= |players[k].pendingEffects|
        invariant forall n :: 0 <= n < m ==> players[k].pendingEffects[n].effectId != BuildFromDiscard
      {
        if players[k].pendingEffects[m].effectId == BuildFromDiscard {
          return true;
        }
        m := m + 1;
      }
    }
    return false;
  }

  // ---- applyPendingEffects ----

  /** The pending effects whose timing is one of the given timings, in order. */
  function Due(effects: seq<Effect>, timings: set<EffectTiming>): (r: seq<Effect>)
    ensures forall e :: e in r <==> e in effects && e.timing in timings
    ensures multiset(r) <= multiset(effects)
    ensures forall e: Effect :: e.timing in timings ==> multiset(r)[e] == multiset(effects)[e]
  {
    Keep(effects, (e: Effect) => e.timing in timings)
  }

  /** Whether an applied effect is removed from the pending list. As written the test is
      a reference comparison of the id with a literal, which is never equal for an id read
      from the database, so every applied effect is removed; the intended test keeps the
      play-last-cards effect pending. */
  predicate Removes(e: Effect, asWritten: bool)
  {
    asWritten || e.effectId != PlayLastCards
  }

  /** The applied effects that are removed, in order. */
  function Removed(effects: seq<Effect>, asWritten: bool): (r: seq<Effect>)
    ensures multiset(r) <= multiset(effects)
  {
    if effects == [] then []
    else
      assert effects == [effects[0]] + effects[1..];
      (if Removes(effects[0], asWritten) then [effects[0]] else []) + Removed(effects[1..], asWritten)
  }

  /** As written every applied effect is removed; with the intended test every one
      except the play-last-cards effect, each as often as it was applied. */
  lemma {:induction false} RemovedCounts(effects: seq<Effect>, asWritten: bool)
    ensures asWritten ==> Removed(effects, asWritten) == effects
    ensures forall e: Effect :: e.effectId == PlayLastCards && !asWritten ==> multiset(Removed(effects, asWritten))[e] == 0
    ensures forall e: Effect :: e.effectId != PlayLastCards ==> multiset(Removed(effects, asWritten))[e] == multiset(effects)[e]
    decreases |effects|
  {
    if effects != [] {
      RemovedCounts(effects[1..], asWritten);
      assert effects == [effects[0]] + effects[1..];
    }
  }

  /** a and b differ at most in the fields effects change and in the pending effects. */
  predicate SameButEffects(a: PlayerState, b: PlayerState)
  {
    SameButEffectFields(a.(pendingEffects := b.pendingEffects), b)
  }

  lemma SameButEffectsTransitive(a: PlayerState, b: PlayerState, c: PlayerState)
    requires SameButEffects(a, b) && SameButEffects(b, c)
    ensures SameButEffects(a, c)
  {
  }

  /** applyEffect changes only the acting seat, and there only its effect fields. */
  lemma ApplyEffectOnlySeat(players: seq<PlayerState>, i: nat, effect: Option<Effect>)
    requires i < |players|
    ensures var r := ApplyEffectSpec(players, i, effect).1;
      SameButEffectFields(players[i], r[i]) && forall k :: 0 <= k < |players| && k != i ==> r[k] == players[k]
  {
    if !(effect.None? || effect.value.parameters.None? || effect.value.parameters.value == "") {
      ApplyPartsOnlySeat(players, i, Split(effect.value.parameters.value, '|'));
    }
  }

  /** One applied effect: applyEffect on the seat, then, if Removes says so, the first
      equal occurrence of the effect leaves the seat's pending list. */
  function ApplyOne(players: seq<PlayerState>, k: nat, e: Effect, asWritten: bool): (r: seq<PlayerState>)
    requires k < |players|
    ensures |r| == |players|
    ensures forall j :: 0 <= j < |players| && j != k ==> r[j] == players[j]
    ensures SameButEffects(players[k], r[k])
    ensures r[k].pendingEffects
      == if Removes(e, asWritten) then RemoveFirst(players[k].pendingEffects, e) else players[k].pendingEffects
  {
    var applied := ApplyEffectSpec(players, k, Some(e)).1;
    ApplyEffectOnlySeat(players, k, Some(e));
    if Removes(e, asWritten)
    then applied[k := applied[k].(pendingEffects := RemoveFirst(applied[k].pendingEffects, e))]
    else applied
  }

  /** One seat's pass of applyPendingEffects over a list of effects, in order. */
  function ApplyList(players: seq<PlayerState>, k: nat, effects: seq<Effect>, asWritten: bool): (r: seq<PlayerState>)
    requires k < |players|
    ensures |r| == |players|
    ensures forall j :: 0 <= j < |players| && j != k ==> r[j] == players[j]
    ensures SameButEffects(players[k], r[k])
    decreases |effects|
  {
    if effects == [] then players
    else
      var next := ApplyOne(players, k, effects[0], asWritten);
      var r := ApplyList(next, k, effects[1..], asWritten);
      SameButEffectsTransitive(players[k], next[k], r[k]);
      r
  }

  /** applyPendingEffects from seat k on: each seat applies the effects that were due
      when its turn came. */
  function ApplyFrom(players: seq<PlayerState>, timings: set<EffectTiming>, asWritten: bool, k: nat): (r: seq<PlayerState>)
    ensures |r| == |players|
    ensures forall j :: 0 <= j < |players| && j < k ==> r[j] == players[j]
    ensures forall j :: 0 <= j < |players| ==> SameButEffects(players[j], r[j])
    decreases |players| - k
  {
    if k >= |players| then players
    else
      var next := ApplyList(players, k, Due(players[k].pendingEffects, timings), asWritten);
      var r := ApplyFrom(next, timings, asWritten, k + 1);
      assert forall j :: 0 <= j < |players| ==> SameButEffects(next[j], r[j]);
      SameButEffectsTransitive(players[k], next[k], r[k]);
      r
  }

  /** applyPendingEffects for a set of timings. */
  function ApplyPendingSpec(players: seq<PlayerState>, timings: set<EffectTiming>, asWritten: bool): (r: seq<PlayerState>)
    ensures |r| == |players|
    ensures forall j :: 0 <= j < |players| ==> SameButEffects(players[j], r[j])
  {
    ApplyFrom(players, timings, asWritten, 0)
  }

  /** The pending list of a seat after its pass over effects. */
  function PendingAfter(pending: seq<Effect>, effects: seq<Effect>, asWritten: bool): seq<Effect>
    decreases |effects|
  {
    if effects == [] then pending
    else
      PendingAfter(if Removes(effects[0], asWritten) then RemoveFirst(pending, effects[0]) else pending,
                   effects[1..], asWritten)
  }

  /** A seat's pass changes its pending list as PendingAfter says. */
  lemma {:induction false} ApplyListPendingAfter(players: seq<PlayerState>, k: nat, effects: seq<Effect>, asWritten: bool)
    requires k < |players|
    ensures ApplyList(players, k, effects, asWritten)[k].pendingEffects
      == PendingAfter(players[k].pendingEffects, effects, asWritten)
    decreases |effects|
  {
    if effects != [] {
      ApplyListPendingAfter(ApplyOne(players, k, effects[0], asWritten), k, effects[1..], asWritten);
    }
  }

  /** Removing effects that are all pending leaves the pending multiset minus the
      removed ones. */
  lemma {:induction false} PendingAfterRemoves(pending: seq<Effect>, effects: seq<Effect>, asWritten: bool)
    requires multiset(effects) <= multiset(pending)
    ensures multiset(PendingAfter(pending, effects, asWritten)) == multiset(pending) - multiset(Removed(effects, asWritten))
    decreases |effects|
  {
    if effects != [] {
      var e := effects[0];
      var rest := effects[1..];
      assert effects == [e] + rest;
      if Removes(e, asWritten) {
        RemoveFirstSpec(pending, e);
        MultisetSplit(multiset(pending), multiset{e}, multiset(rest));
        PendingAfterRemoves(RemoveFirst(pending, e), rest, asWritten);
        assert Removed(effects, asWritten) == [e] + Removed(rest, asWritten);
        MultisetSplit(multiset(pending), multiset{e}, multiset(Removed(rest, asWritten)));
      } else {
        PendingAfterRemoves(pending, rest, asWritten);
      }
    }
  }

  /** Taking away b + c is taking away b, then c; and c fits in what remains. */
  lemma MultisetSplit<T>(a: multiset<T>, b: multiset<T>, c: multiset<T>)
    ensures (a - b) - c == a - (b + c)
    ensures b + c <= a ==> c <= a - b
  {
  }

  /** Applying effects leaves the pending list of the seat minus the removed effects. */
  lemma ApplyListPending(players: seq<PlayerState>, k: nat, effects: seq<Effect>, asWritten: bool)
    requires k < |players|
    requires multiset(effects) <= multiset(players[k].pendingEffects)
    ensures multiset(ApplyList(players, k, effects, asWritten)[k].pendingEffects)
      == multiset(players[k].pendingEffects) - multiset(Removed(effects, asWritten))
  {
    ApplyListPendingAfter(players, k, effects, asWritten);
    PendingAfterRemoves(players[k].pendingEffects, effects, asWritten);
  }

  /** Every seat ends with its pending effects minus the removed due ones. */
  lemma {:induction false} ApplyFromPending(players: seq<PlayerState>, timings: set<EffectTiming>, asWritten: bool, k: nat)
    ensures forall j :: k <= j < |players| ==>
      multiset(ApplyFrom(players, timings, asWritten, k)[j].pendingEffects)
      == multiset(players[j].pendingEffects) - multiset(Removed(Due(players[j].pendingEffects, timings), asWritten))
    decreases |players| - k
  {
    if k < |players| {
      var due := Due(players[k].pendingEffects, timings);
      var next := ApplyList(players, k, due, asWritten);
      ApplyListPending(players, k, due, asWritten);
      ApplyFromPending(next, timings, asWritten, k + 1);
      var r := ApplyFrom(players, timings, asWritten, k);
      assert r == ApplyFrom(next, timings, asWritten, k + 1);
      forall j | k <= j < |players|
        ensures multiset(r[j].pendingEffects)
          == multiset(players[j].pendingEffects) - multiset(Removed(Due(players[j].pendingEffects, timings), asWritten))
      {
        if j == k {
          assert r[k] == next[k];
        } else {
          assert next[j] == players[j];
        }
      }
    }
  }

  /** As written every due effect is consumed: afterwards no pending effect has one of
      the timings, and the other pending effects are kept. */
  lemma AsWrittenConsumesAllDue(players: seq<PlayerState>, timings: set<EffectTiming>)
    ensures var r := ApplyPendingSpec(players, timings, true);
      forall j, e :: 0 <= j < |players| ==>
        multiset(r[j].pendingEffects)[e] == if e.timing in timings then 0 else multiset(players[j].pendingEffects)[e]
  {
    ApplyFromPending(players, timings, true, 0);
    forall j | 0 <= j < |players| {
      RemovedCounts(Due(players[j].pendingEffects, timings), true);
    }
  }

  /** With the intended test a due play-last-cards effect stays pending, while every
      other due effect is consumed. */
  lemma IntendedKeepsPlayLastCards(players: seq<PlayerState>, timings: set<EffectTiming>)
    ensures var r := ApplyPendingSpec(players, timings, false);
      forall j, e :: 0 <= j < |players| ==>
        multiset(r[j].pendingEffects)[e]
        == if e.timing in timings && e.effectId != PlayLastCards then 0 else multiset(players[j].pendingEffects)[e]
  {
    ApplyFromPending(players, timings, false, 0);
    forall j | 0 <= j < |players| {
      RemovedCounts(Due(players[j].pendingEffects, timings), false);
    }
  }

  /** A play-last-cards effect due at the end of a turn, with no parameters. */
  function PlayLastCardsEffect(): Effect
  {
    Effect(PlayLastCards, END_OF_TURN, None)
  }

  /** The discrepancy: a player holding the play-last-cards effect loses it at the end of
      the turn as written, and keeps it with the intended test. */
  lemma PlayLastCardsCounterexample(players: seq<PlayerState>, j: nat)
    requires j < |players| && PlayLastCardsEffect() in players[j].pendingEffects
    ensures PlayLastCardsEffect() !in ApplyPendingSpec(players, {IMMEDIATE, END_OF_TURN}, true)[j].pendingEffects
    ensures PlayLastCardsEffect() in ApplyPendingSpec(players, {IMMEDIATE, END_OF_TURN}, false)[j].pendingEffects
  {
    var timings := {IMMEDIATE, END_OF_TURN};
    var e := PlayLastCardsEffect();
    AsWrittenConsumesAllDue(players, timings);
    IntendedKeepsPlayLastCards(players, timings);
    var r := ApplyPendingSpec(players, timings, true);
    var s := ApplyPendingSpec(players, timings, false);
    assert multiset(s[j].pendingEffects)[e] == multiset(players[j].pendingEffects)[e] > 0;
    assert multiset(r[j].pendingEffects)[e] == 0;
  }

  /** The body of the inner loop of applyPendingEffects for one effect. */
  method ApplyAndRemove(g: Game, k: nat, e: Effect, asWritten: bool)
    requires k < |g.players|
    modifies g`players
    ensures g.players == ApplyOne(old(g.players), k, e, asWritten)
  {
    var _ := ApplyEffect(g, k, Some(e));
    if Removes(e, asWritten) {
      g.players := g.players[k := g.players[k].(pendingEffects := RemoveFirst(g.players[k].pendingEffects, e))];
    }
  }

  /** The inner loop of applyPendingEffects: one seat's snapshot of due effects. */
  method ApplySeatEffects(g: Game, k: nat, toApply: seq<Effect>, asWritten: bool)
    requires k < |g.players|
    modifies g`players
    ensures g.players == ApplyList(old(g.players), k, toApply, asWritten)
  {
    var m := 0;
    while m < |toApply|
      invariant 0 <= m <= |toApply| && |g.players| == |old(g.players)|
      invariant ApplyList(g.players, k, toApply[m..], asWritten) == ApplyList(old(g.players), k, toApply, asWritten)
    {
      ApplyListStep(g.players, k, toApply, m, asWritten);
      ApplyAndRemove(g, k, toApply[m], asWritten);
      m := m + 1;
    }
    assert toApply[m..] == [];
  }

  /** Applying the effects from position m on is applying the one at m, then the rest. */
  lemma ApplyListStep(players: seq<PlayerState>, k: nat, effects: seq<Effect>, m: nat, asWritten: bool)
    requires k < |players| && m < |effects|
    ensures ApplyList(players, k, effects[m..], asWritten)
         == ApplyList(ApplyOne(players, k, effects[m], asWritten), k, effects[m + 1..], asWritten)
  {
    assert effects[m..][0] == effects[m] && effects[m..][1..] == effects[m + 1..];
  }

  /** applyPendingEffects, looping over the seats and, for each, over a snapshot of its
      due effects. */
  method ApplyPendingEffects(g: Game, timings: set<EffectTiming>, asWritten: bool)
    modifies g`players
    ensures g.players == ApplyPendingSpec(old(g.players), timings, asWritten)
  {
    var k := 0;
    while k < |g.players|
      invariant 0 <= k <= |g.players|
      invariant ApplyFrom(g.players, timings, asWritten, k) == ApplyPendingSpec(old(g.players), timings, asWritten)
    {
      ApplySeatEffects(g, k, Due(g.players[k].pendingEffects, timings), asWritten);
      k := k + 1;
    }
  }

  // ---- handleEndOfTurn ----

  /** Every player with the hasPlayedThisTurn flag cleared. */
  function ResetFlags(players: seq<PlayerState>): (r: seq<PlayerState>)
    ensures |r| == |players|
  {
    seq(|players|, k requires 0 <= k < |players| => players[k].(hasPlayedThisTurn := false))
  }

  /** The first seat holding a pending effect with this id (findFirst). */
  function FirstSeatWith(players: seq<PlayerState>, effectId: string): (r: Option<nat>)
    ensures r.None? <==> !AnyHasPending(players, effectId)
    ensures r.Some? ==>
      (r.value < |players| && HasPending(players[r.value], effectId)
       && forall k :: 0 <= k < r.value ==> !HasPending(players[k], effectId))
  {
    if players == [] then None
    else if HasPending(players[0], effectId) then Some(0)
    else match FirstSeatWith(players[1..], effectId)
      case None =>
        assert forall k :: 1 <= k < |players| ==> players[k] == players[1..][k - 1];
        None
      case Some(k) => Some(k + 1)
  }

  /** Some player still holds a card. */
  predicate AnyHoldsCards(players: seq<PlayerState>)
  {
    exists k :: 0 <= k < |players| && players[k].hand != []
  }

  /** The end-of-age loop: every player's first card goes to the discard pile, in seat
      order; an empty hand makes List.remove(0) throw IndexOutOfBoundsException. */
  function DiscardFirstCards(players: seq<PlayerState>, discard: seq<Card>): (r: Result<(seq<PlayerState>, seq<Card>)>)
  {
    if exists k :: 0 <= k < |players| && players[k].hand == [] then Throw(IndexOutOfBounds)
    else Ok((seq(|players|, k requires 0 <= k < |players| => players[k].(hand := players[k].hand[1..])),
             discard + seq(|players|, k requires 0 <= k < |players| => players[k].hand[0])))
  }

  /** The hand direction of an age: clockwise in Ages I and III (and with no age),
      counter-clockwise in Age II. */
  predicate Clockwise(age: Option<Age>)
  {
    age.None? || age == Some(AGE_I) || age == Some(AGE_III)
  }

  /** The players once the flags are reset and the end-of-turn effects applied. */
  function AfterTurnEffects(players: seq<PlayerState>): (r: seq<PlayerState>)
    ensures |r| == |players|
  {
    ApplyPendingSpec(ResetFlags(players), {IMMEDIATE, END_OF_TURN}, false)
  }

  /** Effects and flag resets keep positions and hands. */
  lemma AfterTurnEffectsKeeps(players: seq<PlayerState>)
    ensures forall k :: 0 <= k < |players| ==>
      AfterTurnEffects(players)[k].position == players[k].position
      && AfterTurnEffects(players)[k].hand == players[k].hand
      && !AfterTurnEffects(players)[k].hasPlayedThisTurn
  {
    var r := AfterTurnEffects(players);
    forall k | 0 <= k < |players|
      ensures r[k].position == players[k].position && r[k].hand == players[k].hand && !r[k].hasPlayedThisTurn
    {
      assert SameButEffects(ResetFlags(players)[k], r[k]);
    }
  }

  /** A sorted order stays one when positions do not change. */
  lemma PositionOrderKept(a: seq<PlayerState>, b: seq<PlayerState>, order: seq<nat>)
    requires IsPositionOrder(a, order) && |a| == |b|
    requires forall k :: 0 <= k < |a| ==> a[k].position == b[k].position
    ensures IsPositionOrder(b, order)
  {
    forall x, y | 0 <= x < y < |order|
      ensures SeatsBefore(b, order[x], order[y])
    {
      assert SeatsBefore(a, order[x], order[y]);
    }
  }

  /** The discard at the end of an age: the effects due before it, one card from every
      hand onto the discard pile, then the effects due after it. */
  function DiscardStep(t: Table): (r: Result<Table>)
  {
    var p2 := ApplyPendingSpec(t.players, {END_OF_AGE_BEFORE_DISCARD}, false);
    match DiscardFirstCards(p2, t.discard)
    case Throw(e) => Throw(e)
    case Ok((p3, discard)) =>
      Ok(t.(players := ApplyPendingSpec(p3, {END_OF_AGE_AFTER_DISCARD}, false), discard := discard))
  }

  /** The move to the next age: the end-of-game effects after Age III, otherwise a new deal. */
  function NextAgeStep(t: Table, catalogue: seq<Card>, shuffle: seq<Card> -> seq<Card>): (r: Result<Table>)
  {
    var age := NextAge(t.age);
    if age.None? then Ok(t.(age := None, players := ApplyPendingSpec(t.players, {END_OF_GAME}, false)))
    else match DistributeSpec(t.players, catalogue, age.value, shuffle)
      case Throw(e) => Throw(e)
      case Ok(p5) => Ok(t.(age := age, players := p5))
  }

  /** The end of the age, once no player may still play a last card. */
  function CloseAge(t: Table, catalogue: seq<Card>, shuffle: seq<Card> -> seq<Card>): (r: Result<Table>)
  {
    match DiscardStep(t)
    case Throw(e) => Throw(e)
    case Ok(t2) => NextAgeStep(t2, catalogue, shuffle)
  }

  /** handleEndOfTurn, with the acting player's seat, the card catalogue, the shuffle and
      the players' sorted order as parameters. */
  function EndOfTurnSpec(t: Table, actor: nat, catalogue: seq<Card>, shuffle: seq<Card> -> seq<Card>,
                         order: seq<nat>): (r: Result<Table>)
    requires actor < |t.players| && IsPositionOrder(t.players, order)
  {
    var remaining := |t.players[actor].hand|;
    if !AllPlayed(t.players) then Ok(t)
    else
      var p1 := AfterTurnEffects(t.players);
      var status := if AnyHasPending(p1, BuildFromDiscard) then WAITING else t.status;
      if status == WAITING then Ok(t.(status := status, players := p1))
      else
        AfterTurnEffectsKeeps(t.players);
        PositionOrderKept(t.players, p1, order);
        NextTurnSpec(t.(players := p1), remaining, catalogue, shuffle, order)
  }

  /** The rest of handleEndOfTurn once the end-of-turn effects are applied and the game
      is not paused: on the last card the age closes unless a player still holding cards
      may play them; otherwise the hands pass along the table. */
  function NextTurnSpec(t: Table, remaining: nat, catalogue: seq<Card>, shuffle: seq<Card> -> seq<Card>,
                        order: seq<nat>): (r: Result<Table>)
    requires IsPositionOrder(t.players, order)
  {
    if remaining <= 1 then
      if AnyHoldsCards(t.players) && AnyHasPending(t.players, PlayLastCards) then
        var j := FirstSeatWith(t.players, PlayLastCards).value;
        Ok(t.(players := t.players[j := t.players[j].(hasPlayedThisTurn := false)]))
      else CloseAge(t, catalogue, shuffle)
    else
      Ok(t.(players := RotateSpec(t.players, order, Clockwise(t.age))))
  }

  /** Effects keep hands and positions. */
  lemma ApplyPendingKeepsHands(players: seq<PlayerState>, timings: set<EffectTiming>)
    ensures forall k :: 0 <= k < |players| ==>
      ApplyPendingSpec(players, timings, false)[k].hand == players[k].hand
      && ApplyPendingSpec(players, timings, false)[k].position == players[k].position
  {
    forall k | 0 <= k < |players|
      ensures ApplyPendingSpec(players, timings, false)[k].hand == players[k].hand
      ensures ApplyPendingSpec(players, timings, false)[k].position == players[k].position
    {
      assert SameButEffects(players[k], ApplyPendingSpec(players, timings, false)[k]);
    }
  }

  /** Until every player has played, the end of a turn changes nothing. */
  lemma WaitsForAllPlayers(t: Table, actor: nat, catalogue: seq<Card>, shuffle: seq<Card> -> seq<Card>, order: seq<nat>)
    requires actor < |t.players| && IsPositionOrder(t.players, order) && !AllPlayed(t.players)
    ensures EndOfTurnSpec(t, actor, catalogue, shuffle, order) == Ok(t)
  {
  }

  /** A pending build from the discard pile pauses the game in WAITING, with every flag
      cleared and the hands, the age and the discard pile untouched. */
  lemma BuildFromDiscardPauses(t: Table, actor: nat, catalogue: seq<Card>, shuffle: seq<Card> -> seq<Card>, order: seq<nat>)
    requires actor < |t.players| && IsPositionOrder(t.players, order) && AllPlayed(t.players)
    requires AnyHasPending(AfterTurnEffects(t.players), BuildFromDiscard)
    ensures var r := EndOfTurnSpec(t, actor, catalogue, shuffle, order);
      r.Ok? && r.value.status == WAITING && r.value.age == t.age && r.value.discard == t.discard
      && |r.value.players| == |t.players|
      && forall k :: 0 <= k < |t.players| ==>
        r.value.players[k].hand == t.players[k].hand && !r.value.players[k].hasPlayedThisTurn
  {
    AfterTurnEffectsKeeps(t.players);
  }

  /** Within an age the hands pass one place along the table, clockwise in Ages I and III
      and counter-clockwise in Age II, and every flag is cleared for the next turn. */
  lemma MidAgeRotates(t: Table, actor: nat, catalogue: seq<Card>, shuffle: seq<Card> -> seq<Card>, order: seq<nat>)
    requires actor < |t.players| && IsPositionOrder(t.players, order) && AllPlayed(t.players)
    requires !AnyHasPending(AfterTurnEffects(t.players), BuildFromDiscard) && t.status != WAITING
    requires |t.players[actor].hand| >= 2
    ensures var r := EndOfTurnSpec(t, actor, catalogue, shuffle, order);
      r.Ok? && r.value.status == t.status && r.value.age == t.age && r.value.discard == t.discard
      && IsPositionOrder(r.value.players, order)
      && OrderedHands(r.value.players, order) == Rotated(OrderedHands(t.players, order), Clockwise(t.age))
      && forall k :: 0 <= k < |t.players| ==> !r.value.players[k].hasPlayedThisTurn
  {
    var p1 := AfterTurnEffects(t.players);
    AfterTurnEffectsKeeps(t.players);
    PositionOrderKept(t.players, p1, order);
    RotateTurnsHands(p1, order, Clockwise(t.age));
    RotateKeepsOrder(p1, order, Clockwise(t.age));
    assert OrderedHands(p1, order) == OrderedHands(t.players, order);
  }

  /** When the last card is reached but a player still holding cards owns the
      play-last-cards effect, the age does not close: nothing is discarded, the age stays,
      and the flag reset of the effect's owner changes nothing, since every flag has just
      been cleared. */
  lemma PlayLastCardsHoldsAge(t: Table, actor: nat, catalogue: seq<Card>, shuffle: seq<Card> -> seq<Card>, order: seq<nat>)
    requires actor < |t.players| && IsPositionOrder(t.players, order) && AllPlayed(t.players)
    requires !AnyHasPending(AfterTurnEffects(t.players), BuildFromDiscard) && t.status != WAITING
    requires |t.players[actor].hand| <= 1
    requires AnyHoldsCards(AfterTurnEffects(t.players)) && AnyHasPending(AfterTurnEffects(t.players), PlayLastCards)
    ensures EndOfTurnSpec(t, actor, catalogue, shuffle, order) == Ok(t.(players := AfterTurnEffects(t.players)))
  {
    var p1 := AfterTurnEffects(t.players);
    var j := FirstSeatWith(p1, PlayLastCards).value;
    AfterTurnEffectsKeeps(t.players);
    assert p1[j].(hasPlayedThisTurn := false) == p1[j];
    assert p1[j := p1[j]] == p1;
  }

  /** Closing an age moves every player's first card to the discard pile in seat order
      and leaves each hand without that card before the next deal. */
  lemma CloseAgeDiscards(t: Table, catalogue: seq<Card>, shuffle: seq<Card> -> seq<Card>)
    requires forall k :: 0 <= k < |t.players| ==> t.players[k].hand != []
    ensures var p2 := ApplyPendingSpec(t.players, {END_OF_AGE_BEFORE_DISCARD}, false);
      DiscardFirstCards(p2, t.discard).Ok?
      && DiscardFirstCards(p2, t.discard).value.1
         == t.discard + seq(|t.players|, k requires 0 <= k < |t.players| => t.players[k].hand[0])
      && forall k :: 0 <= k < |t.players| ==>
        DiscardFirstCards(p2, t.discard).value.0[k].hand == t.players[k].hand[1..]
  {
    ApplyPendingKeepsHands(t.players, {END_OF_AGE_BEFORE_DISCARD});
    DiscardFirstCardsOf(ApplyPendingSpec(t.players, {END_OF_AGE_BEFORE_DISCARD}, false), t.players, t.discard);
  }

  /** Discarding from players holding the same hands as `players`. */
  lemma DiscardFirstCardsOf(p: seq<PlayerState>, players: seq<PlayerState>, discard: seq<Card>)
    requires |p| == |players|
    requires forall k :: 0 <= k < |p| ==> p[k].hand == players[k].hand && players[k].hand != []
    ensures DiscardFirstCards(p, discard).Ok?
    ensures DiscardFirstCards(p, discard).value.1
      == discard + seq(|players|, k requires 0 <= k < |players| => players[k].hand[0])
    ensures forall k :: 0 <= k < |p| ==> DiscardFirstCards(p, discard).value.0[k].hand == players[k].hand[1..]
  {
    assert seq(|p|, k requires 0 <= k < |p| => p[k].hand[0])
        == seq(|players|, k requires 0 <= k < |players| => players[k].hand[0]);
  }

  /** A player with no card left when the age closes makes the turn fail with
      IndexOutOfBoundsException. */
  lemma CloseAgeEmptyHandThrows(t: Table, catalogue: seq<Card>, shuffle: seq<Card> -> seq<Card>, k: nat)
    requires k < |t.players| && t.players[k].hand == []
    ensures CloseAge(t, catalogue, shuffle) == Throw(IndexOutOfBounds)
  {
    ApplyPendingKeepsHands(t.players, {END_OF_AGE_BEFORE_DISCARD});
    assert ApplyPendingSpec(t.players, {END_OF_AGE_BEFORE_DISCARD}, false)[k].hand == [];
  }

  /** Closing Ages I and II deals the next age: the age advances and each player holds
      seven new cards; closing Age III ends the ages and leaves the hands as discarded. */
  lemma CloseAgeAdvances(t: Table, catalogue: seq<Card>, shuffle: seq<Card> -> seq<Card>)
    requires forall k :: 0 <= k < |t.players| ==> t.players[k].hand != []
    requires CloseAge(t, catalogue, shuffle).Ok?
    ensures var r := CloseAge(t, catalogue, shuffle).value;
      r.age == NextAge(t.age) && |r.players| == |t.players|
      && r.discard == t.discard + seq(|t.players|, k requires 0 <= k < |t.players| => t.players[k].hand[0])
      && (r.age.Some? ==> forall k :: 0 <= k < |r.players| ==> |r.players[k].hand| == HandSize)
      && (r.age.None? ==> forall k :: 0 <= k < |r.players| ==> r.players[k].hand == t.players[k].hand[1..])
  {
    CloseAgeDiscards(t, catalogue, shuffle);
    var p2 := ApplyPendingSpec(t.players, {END_OF_AGE_BEFORE_DISCARD}, false);
    var p3 := DiscardFirstCards(p2, t.discard).value.0;
    var p4 := ApplyPendingSpec(p3, {END_OF_AGE_AFTER_DISCARD}, false);
    ApplyPendingKeepsHands(p3, {END_OF_AGE_AFTER_DISCARD});
    ApplyPendingKeepsHands(p4, {END_OF_GAME});
    var age := NextAge(t.age);
    if age.Some? {
      DealPartitionsDeck(p4, catalogue, age.value, shuffle);
    }
  }

  /** The end-of-age discard loop, on the list of players and the discard pile. */
  method DiscardLastCards(players: seq<PlayerState>, discard: seq<Card>) returns (r: Result<(seq<PlayerState>, seq<Card>)>)
    ensures r == DiscardFirstCards(players, discard)
  {
    var ps := players;
    var d := discard;
    for k := 0 to |players|
      invariant |ps| == |players|
      invariant forall j :: 0 <= j < k ==> players[j].hand != [] && ps[j] == players[j].(hand := players[j].hand[1..])
      invariant forall j :: k <= j < |players| ==> ps[j] == players[j]
      invariant d == discard + seq(k, j requires 0 <= j < k => players[j].hand[0])
    {
      if ps[k].hand == [] {
        return Throw(IndexOutOfBounds);
      }
      d := d + [ps[k].hand[0]];
      ps := ps[k := ps[k].(hand := ps[k].hand[1..])];
    }
    assert ps == seq(|players|, k requires 0 <= k < |players| => players[k].(hand := players[k].hand[1..]));
    return Ok((ps, d));
  }

  /** Puts the game back as the transaction found it. */
  method Restore(g: Game, t: Table)
    modifies g`status, g`currentAge, g`players, g`discard
    ensures Table(g.status, g.currentAge, g.players, g.discard) == t
  {
    g.status, g.currentAge, g.players, g.discard := t.status, t.age, t.players, t.discard;
  }

  /** The discard part of the end of an age; a failure rolls the game back. */
  method DiscardAtAgeEnd(g: Game) returns (error: Option<JavaException>)
    modifies g`players, g`discard
    ensures var r := DiscardStep(Table(g.status, g.currentAge, old(g.players), old(g.discard)));
      if error.None? then r == Ok(Table(g.status, g.currentAge, g.players, g.discard))
      else (r == Throw(error.value) && g.players == old(g.players) && g.discard == old(g.discard))
  {
    var saved := g.players;
    ApplyPendingEffects(g, {END_OF_AGE_BEFORE_DISCARD}, false);
    var discarded := DiscardLastCards(g.players, g.discard);
    if discarded.Throw? {
      g.players := saved;
      return Some(discarded.exception);
    }
    g.players, g.discard := discarded.value.0, discarded.value.1;
    ApplyPendingEffects(g, {END_OF_AGE_AFTER_DISCARD}, false);
    error := None;
  }

  /** The move to the next age; a failed deal rolls the game back. */
  method OpenNextAge(g: Game, catalogue: seq<Card>, shuffle: seq<Card> -> seq<Card>) returns (error: Option<JavaException>)
    modifies g`currentAge, g`players
    ensures var r := NextAgeStep(Table(g.status, old(g.currentAge), old(g.players), g.discard), catalogue, shuffle);
      if error.None? then r == Ok(Table(g.status, g.currentAge, g.players, g.discard))
      else (r == Throw(error.value) && g.currentAge == old(g.currentAge) && g.players == old(g.players))
  {
    var saved := g.currentAge;
    g.currentAge := NextAge(g.currentAge);
    if g.currentAge.None? {
      ApplyPendingEffects(g, {END_OF_GAME}, false);
      return None;
    }
    error := DistributeCards(g, catalogue, shuffle);
    if error.Some? {
      g.currentAge := saved;
    }
  }

  /** The age-closing part of handleEndOfTurn; a failure rolls the game back. */
  method EndAge(g: Game, catalogue: seq<Card>, shuffle: seq<Card> -> seq<Card>) returns (error: Option<JavaException>)
    modifies g`currentAge, g`players, g`discard
    ensures var r := CloseAge(Table(g.status, old(g.currentAge), old(g.players), old(g.discard)), catalogue, shuffle);
      if error.None? then r == Ok(Table(g.status, g.currentAge, g.players, g.discard))
      else (r == Throw(error.value) && g.currentAge == old(g.currentAge) && g.players == old(g.players)
            && g.discard == old(g.discard))
  {
    var saved := Table(g.status, g.currentAge, g.players, g.discard);
    error := DiscardAtAgeEnd(g);
    if error.Some? {
      return;
    }
    error := OpenNextAge(g, catalogue, shuffle);
    if error.Some? {
      g.currentAge, g.players, g.discard := saved.age, saved.players, saved.discard;
    }
  }

  /** The loop that clears every player's hasPlayedThisTurn flag. */
  method ResetTurnFlags(g: Game)
    modifies g`players
    ensures g.players == ResetFlags(old(g.players))
  {
    for k := 0 to |g.players|
      invariant |g.players| == |old(g.players)|
      invariant forall j :: 0 <= j < k ==> g.players[j] == old(g.players)[j].(hasPlayedThisTurn := false)
      invariant forall j :: k <= j < |g.players| ==> g.players[j] == old(g.players)[j]
    {
      g.players := g.players[k := g.players[k].(hasPlayedThisTurn := false)];
    }
  }

  /** The flag reset and the end-of-turn effects of handleEndOfTurn. */
  method EndTurnEffects(g: Game)
    modifies g`players
    ensures g.players == AfterTurnEffects(old(g.players))
  {
    ResetTurnFlags(g);
    ApplyPendingEffects(g, {IMMEDIATE, END_OF_TURN}, false);
  }

  /** handleEndOfTurn. An exception rolls the game back to its state on entry, as the
      surrounding transaction does. */
  method HandleEndOfTurn(g: Game, actor: nat, catalogue: seq<Card>, shuffle: seq<Card> -> seq<Card>, order: seq<nat>)
    returns (error: Option<JavaException>)
    requires actor < |g.players| && IsPositionOrder(g.players, order)
    modifies g`status, g`currentAge, g`players, g`discard
    ensures var r := EndOfTurnSpec(Table(old(g.status), old(g.currentAge), old(g.players), old(g.discard)),
                                   actor, catalogue, shuffle, order);
      if error.None? then r == Ok(Table(g.status, g.currentAge, g.players, g.discard))
      else (r == Throw(error.value) && Table(g.status, g.currentAge, g.players, g.discard)
                                       == Table(old(g.status), old(g.currentAge), old(g.players), old(g.discard)))
  {
    var t := Table(g.status, g.currentAge, g.players, g.discard);
    var remaining := |g.players[actor].hand|;
    if !AllPlayed(g.players) {
      return None;
    }
    EndTurnEffects(g);
    var pause := HasPendingBuildFromDiscard(g.players);
    if pause {
      SetGameToWaiting(g);
    }
    if g.status == WAITING {
      return None;
    }
    AfterTurnEffectsKeeps(t.players);
    PositionOrderKept(t.players, g.players, order);
    error := NextTurn(g, Table(g.status, g.currentAge, g.players, g.discard), remaining, catalogue, shuffle, order);
    if error.Some? {
      g.players := t.players;
    }
  }

  /** The last part of handleEndOfTurn; t1 is the game's table on entry, and a failure
      leaves it as it was. */
  method NextTurn(g: Game, ghost t1: Table, remaining: nat, catalogue: seq<Card>, shuffle: seq<Card> -> seq<Card>,
                  order: seq<nat>)
    returns (error: Option<JavaException>)
    requires Table(g.status, g.currentAge, g.players, g.discard) == t1 && IsPositionOrder(t1.players, order)
    modifies g`currentAge, g`players, g`discard
    ensures var r := NextTurnSpec(t1, remaining, catalogue, shuffle, order);
      if error.None? then r == Ok(Table(g.status, g.currentAge, g.players, g.discard))
      else r == Throw(error.value) && Table(g.status, g.currentAge, g.players, g.discard) == t1
  {
    if remaining <= 1 {
      if AnyHoldsCards(g.players) && AnyHasPending(g.players, PlayLastCards) {
        var j := FirstSeatWith(g.players, PlayLastCards).value;
        g.players := g.players[j := g.players[j].(hasPlayedThisTurn := false)];
        return None;
      }
      error := EndAge(g, catalogue, shuffle);
    } else {
      RotateHands(g, order, Clockwise(g.currentAge));
      error := None;
    }
  }

}
