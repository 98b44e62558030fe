/** Building wonder stages: the buildability check, the build itself (payment, card
    moved under the wonder, stage counter advanced) and the pending effect of the stage
    just built. */
module WonderBuild {
  import opened Common
  import opened JavaText
  import opened Ressources
  import opened Entities
  import opened GameEntities
  import opened CardPlay

  /** The guard of canBuildWonderWithCard as written: every stage counts as built once
      the counter reaches numberOfStages - 1. */
  predicate AllStagesBuiltAsWritten(stage: int, numberOfStages: int)
  {
    stage >= numberOfStages - 1
  }

  /** The evidently intended guard: every stage is built once the counter, the number
      of stages built so far, reaches numberOfStages. */
  predicate AllStagesBuilt(stage: int, numberOfStages: int)
  {
    stage >= numberOfStages
  }

  /** canBuildWonderWithCard with a given "all built" guard: a missing wonder is a null
      dereference, a stage index outside the cost list an index error; otherwise the
      next stage is buildable when its cost is affordable. */
  function CanBuildWith(players: seq<PlayerState>, i: int, asWritten: bool): (r: Result<bool>)
    requires HasNeighbours(players, i)
    ensures players[i].wonder.None? ==> r == Throw(NullPointer)
    ensures players[i].wonder.Some? && r.Ok? && r.value ==>
      var w := players[i].wonder.value;
      0 <= players[i].wonderStage < |w.stageCosts| && players[i].wonderStage < w.numberOfStages
  {
    var p := players[i];
    if p.wonder.None? then Throw(NullPointer)
    else
      var w := p.wonder.value;
      if (if asWritten then AllStagesBuiltAsWritten(p.wonderStage, w.numberOfStages)
          else AllStagesBuilt(p.wonderStage, w.numberOfStages)) then Ok(false)
      else if !(0 <= p.wonderStage < |w.stageCosts|) then Throw(IndexOutOfBounds)
      else Ok(CanAffordSpec(players, i, w.stageCosts[p.wonderStage]))
  }

  function CanBuildAsWritten(players: seq<PlayerState>, i: int): (r: Result<bool>)
    requires HasNeighbours(players, i)
  {
    CanBuildWith(players, i, true)
  }

  /** canBuildWonderWithCard with the corrected guard; the rest of the model uses it. */
  function CanBuildSpec(players: seq<PlayerState>, i: int): (r: Result<bool>)
    requires HasNeighbours(players, i)
  {
    CanBuildWith(players, i, false)
  }

  /** Below the last stage, buildability is exactly affordability of the next stage's
      cost, under either guard. */
  lemma CanBuildIsAffordability(players: seq<PlayerState>, i: int)
    requires HasNeighbours(players, i) && players[i].wonder.Some?
    requires var w := players[i].wonder.value;
      0 <= players[i].wonderStage < |w.stageCosts| && players[i].wonderStage < w.numberOfStages - 1
    ensures CanBuildAsWritten(players, i) == CanBuildSpec(players, i)
      == Ok(CanAffordSpec(players, i, players[i].wonder.value.stageCosts[players[i].wonderStage]))
  {
  }

  /** The as-written guard refuses the last stage even when it is affordable: with
      numberOfStages stages and numberOfStages - 1 of them built, the written check
      answers false while the intended one answers by the cost. */
  lemma LastStageRefusedAsWritten(players: seq<PlayerState>, i: int)
    requires HasNeighbours(players, i) && players[i].wonder.Some?
    requires var w := players[i].wonder.value;
      players[i].wonderStage == w.numberOfStages - 1 && 0 <= players[i].wonderStage < |w.stageCosts|
    ensures CanBuildAsWritten(players, i) == Ok(false)
    ensures CanBuildSpec(players, i) == Ok(CanAffordSpec(players, i, players[i].wonder.value.stageCosts[players[i].wonderStage]))
  {
  }

  /** A free last stage: written guard says no, intended guard says yes. */
  lemma LastStageCounterexample(players: seq<PlayerState>, i: int)
    requires HasNeighbours(players, i) && players[i].wonder.Some?
    requires var w := players[i].wonder.value;
      w.numberOfStages == 3 && players[i].wonderStage == 2 && |w.stageCosts| == 3 && w.stageCosts[2] == map[]
    requires Get(players[i].resources, MUTABLE_BASE) >= 0 && Get(players[i].resources, MUTABLE_ADVANCED) >= 0
    ensures CanBuildAsWritten(players, i) == Ok(false)
    ensures CanBuildSpec(players, i) == Ok(true)
  {
    OwnResourcesSuffice(players, i, map[]);
  }

  // ================================================================ stage effects

  /** The number of cases of the key switch of mapWonderStageToEffectId. */
  const StageEffectCount := 42

  /** Case i of the key switch of mapWonderStageToEffectId, in source order: the stage
      key and its effect id. */
  function StageEffectCase(i: nat): (c: (string, string))
  {
    match i
    case 0 => ("ALEXANDRIA_A_STAGE_1", "ALEXANDRIA_A_STAGE_1_VP_3")
    case 1 => ("ALEXANDRIA_A_STAGE_2", "ALEXANDRIA_A_STAGE_2_MUTABLE_BASE_1")
    case 2 => ("ALEXANDRIA_A_STAGE_3", "ALEXANDRIA_A_STAGE_3_VP_7")
    case 3 => ("ALEXANDRIA_B_STAGE_1", "ALEXANDRIA_B_STAGE_1_MUTABLE_BASE_1")
    case 4 => ("ALEXANDRIA_B_STAGE_2", "ALEXANDRIA_B_STAGE_2_MUTABLE_ADVANCED_1")
    case 5 => ("ALEXANDRIA_B_STAGE_3", "ALEXANDRIA_B_STAGE_3_VP_7")
    case 6 => ("BABYLON_A_STAGE_1", "BABYLON_A_STAGE_1_VP_3")
    case 7 => ("BABYLON_A_STAGE_2", "BABYLON_A_STAGE_2_MUTABLE_SCIENCE_1")
    case 8 => ("BABYLON_A_STAGE_3", "BABYLON_A_STAGE_3_VP_7")
    case 9 => ("BABYLON_B_STAGE_1", "BABYLON_B_STAGE_1_VP_3")
    case 10 => ("BABYLON_B_STAGE_2", "BABYLON_B_STAGE_2_PLAY_LAST_CARDS")
    case 11 => ("BABYLON_B_STAGE_3", "BABYLON_B_STAGE_3_MUTABLE_SCIENCE_1")
    case 12 => ("EPHESOS_A_STAGE_1", "EPHESOS_A_STAGE_1_VP_3")
    case 13 => ("EPHESOS_A_STAGE_2", "EPHESOS_A_STAGE_2_COINS_9")
    case 14 => ("EPHESOS_A_STAGE_3", "EPHESOS_A_STAGE_3_VP_7")
    case 15 => ("EPHESOS_B_STAGE_1", "EPHESOS_B_STAGE_1_VP_2_COINS_4_MILITARY_1")
    case 16 => ("EPHESOS_B_STAGE_2", "EPHESOS_B_STAGE_2_VP_3_COINS_4_MILITARY_1")
    case 17 => ("EPHESOS_B_STAGE_3", "EPHESOS_B_STAGE_3_VP_5_COINS_4_MILITARY_1")
    case 18 => ("GIZAH_A_STAGE_1", "GIZAH_A_STAGE_1_VP_3")
    case 19 => ("GIZAH_A_STAGE_2", "GIZAH_A_STAGE_2_VP_5")
    case 20 => ("GIZAH_A_STAGE_3", "GIZAH_A_STAGE_3_VP_7")
    case 21 => ("GIZAH_B_STAGE_1", "GIZAH_B_STAGE_1_VP_3")
    case 22 => ("GIZAH_B_STAGE_2", "GIZAH_B_STAGE_2_VP_5")
    case 23 => ("GIZAH_B_STAGE_3", "GIZAH_B_STAGE_3_VP_5")
    case 24 => ("GIZAH_B_STAGE_4", "GIZAH_B_STAGE_4_VP_7")
    case 25 => ("HALIKARNASSOS_A_STAGE_1", "HALIKARNASSOS_A_STAGE_1_VP_3")
    case 26 => ("HALIKARNASSOS_A_STAGE_2", "HALIKARNASSOS_A_STAGE_2_BUILD_DISCARD")
    case 27 => ("HALIKARNASSOS_A_STAGE_3", "HALIKARNASSOS_A_STAGE_3_VP_7")
    case 28 => ("HALIKARNASSOS_B_STAGE_1", "HALIKARNASSOS_B_STAGE_1_BUILD_DISCARD")
    case 29 => ("HALIKARNASSOS_B_STAGE_2", "HALIKARNASSOS_B_STAGE_2_BUILD_DISCARD")
    case 30 => ("HALIKARNASSOS_B_STAGE_3", "HALIKARNASSOS_B_STAGE_3_BUILD_DISCARD")
    case 31 => ("OLYMPIA_A_STAGE_1", "OLYMPIA_A_STAGE_1_VP_3")
    case 32 => ("OLYMPIA_A_STAGE_2", "OLYMPIA_A_STAGE_2_FIRST_CARD_FREE")
    case 33 => ("OLYMPIA_A_STAGE_3", "OLYMPIA_A_STAGE_3_VP_7")
    case 34 => ("OLYMPIA_B_STAGE_1", "OLYMPIA_B_STAGE_1_BASE_PRICE_1")
    case 35 => ("OLYMPIA_B_STAGE_2", "OLYMPIA_B_STAGE_2_VP_5")
    case 36 => ("OLYMPIA_B_STAGE_3", "OLYMPIA_B_STAGE_3_COPY_VIOLET")
    case 37 => ("RHODES_A_STAGE_1", "RHODES_A_STAGE_1_VP_3")
    case 38 => ("RHODES_A_STAGE_2", "RHODES_A_STAGE_2_MILITARY_2")
    case 39 => ("RHODES_A_STAGE_3", "RHODES_A_STAGE_3_VP_7")
    case 40 => ("RHODES_B_STAGE_1", "RHODES_B_STAGE_1_VP_3_COINS_3_MILITARY_1")
    case _ => ("RHODES_B_STAGE_2", "RHODES_B_STAGE_2_VP_4_COINS_4_MILITARY_1")
  }

  /** The key built by mapWonderStageToEffectId: upper-cased name, face and 1-based stage. */
  function StageKey(wonderName: string, face: string, stage: int): (key: string)
    ensures |key| > |wonderName| + |face| + 8
    ensures key[..|wonderName|] == ToUpper(wonderName)
  {
    ToUpper(wonderName) + "_" + face + "_STAGE_" + IntToString(stage)
  }

  /** The switch of mapWonderStageToEffectId on a key: None for the default case. */
  function StageEffectId(key: string): (r: Option<string>)
  {
    CaseFrom(StageEffectCase, StageEffectCount, key, 0)
  }

  /** The switch gives the effect id of the first case labelled with the key, and
      nothing for a key no case has. */
  lemma StageEffectIdCases(key: string)
    ensures StageEffectId(key).None? <==> forall j :: 0 <= j < StageEffectCount ==> StageEffectCase(j).0 != key
    ensures StageEffectId(key).Some? ==>
      exists j :: 0 <= j < StageEffectCount && StageEffectCase(j) == (key, StageEffectId(key).value)
        && forall l :: 0 <= l < j ==> StageEffectCase(l).0 != key
  {
    CaseFromFirstMatch(StageEffectCase, StageEffectCount, key, 0);
  }

  /** mapWonderStageToEffectId: the switch on the key of the wonder, face and stage. */
  function MapWonderStageToEffectId(wonderName: string, face: string, stage: int): (r: Option<string>)
  {
    StageEffectId(StageKey(wonderName, face, stage))
  }

  /** The key ignores the case of the wonder name: names equal up to case give the same
      key, and so the same effect. */
  lemma StageKeyIgnoresCase(a: string, b: string, face: string, stage: int)
    requires EqualsIgnoreCase(a, b)
    ensures StageKey(a, face, stage) == StageKey(b, face, stage)
    ensures MapWonderStageToEffectId(a, face, stage) == MapWonderStageToEffectId(b, face, stage)
  {
    forall i | 0 <= i < |a|
      ensures ToUpper(a)[i] == ToUpper(b)[i]
    {
    }
    assert ToUpper(a) == ToUpper(b);
  }

  /** applyWonderStageBenefits: queue the effect of the stage the counter now names,
      when the key is mapped and the effect exists; otherwise nothing changes. */
  function WithStageEffect(p: PlayerState, effects: map<string, Effect>): (r: PlayerState)
    requires p.wonder.Some?
    ensures r.(pendingEffects := p.pendingEffects) == p
    ensures var id := MapWonderStageToEffectId(p.wonder.value.name, p.wonder.value.face, p.wonderStage);
      r.pendingEffects == if id.Some? && id.value in effects then p.pendingEffects + [effects[id.value]] else p.pendingEffects
  {
    match MapWonderStageToEffectId(p.wonder.value.name, p.wonder.value.face, p.wonderStage)
    case None => p
    case Some(effectId) =>
      if effectId !in effects then p
      else p.(pendingEffects := p.pendingEffects + [effects[effectId]])
  }

  /** buildWonderWithCard once the check has passed: pay the stage cost, move the card
      from the hand under the wonder, advance the counter and queue the stage's effect. */
  function BuildSpec(players: seq<PlayerState>, i: int, card: Card, effects: map<string, Effect>): (r: seq<PlayerState>)
    requires HasNeighbours(players, i) && CanBuildSpec(players, i) == Ok(true)
    ensures |r| == |players|
  {
    var cost := players[i].wonder.value.stageCosts[players[i].wonderStage];
    var paid := PayCostSpec(players, i, cost);
    var me := paid[i];
    paid[i := WithStageEffect(me.(hand := RemoveFirst(me.hand, card), wonderStage := me.wonderStage + 1,
                                  wonderCards := me.wonderCards + [card]), effects)]
  }

  /** A build advances the counter by one and moves exactly the card from the hand to the
      end of the wonder cards; the pending effect is the one of the new stage number. */
  lemma BuildMovesCard(players: seq<PlayerState>, i: int, card: Card, effects: map<string, Effect>)
    requires HasNeighbours(players, i) && CanBuildSpec(players, i) == Ok(true)
    requires card in players[i].hand
    ensures var me := BuildSpec(players, i, card, effects)[i];
      me.wonderStage == players[i].wonderStage + 1
      && me.wonderStage <= players[i].wonder.value.numberOfStages
      && me.wonderCards == players[i].wonderCards + [card]
      && multiset(me.hand) == multiset(players[i].hand) - multiset{card}
      && me.playedCards == players[i].playedCards
      && var id := MapWonderStageToEffectId(players[i].wonder.value.name, players[i].wonder.value.face, players[i].wonderStage + 1);
         me.pendingEffects == if id.Some? && id.value in effects then players[i].pendingEffects + [effects[id.value]] else players[i].pendingEffects
  {
    var cost := players[i].wonder.value.stageCosts[players[i].wonderStage];
    var paid := PayCostSpec(players, i, cost);
    PayCostOnlyCoins(players, i, cost);
    assert paid[i] == players[i].(coins := paid[i].coins);
    RemoveFirstSpec(players[i].hand, card);
  }

  /** With non-negative prices and neighbour stocks a build creates no coins and
      destroys none: it only moves them to the neighbours. */
  lemma BuildConservesCoins(players: seq<PlayerState>, i: int, card: Card, effects: map<string, Effect>)
    requires HasNeighbours(players, i) && CanBuildSpec(players, i) == Ok(true)
    requires NonNegative(LeftOf(players, i).resources) && NonNegative(RightOf(players, i).resources)
    requires players[i].leftBasePrice >= 0 && players[i].rightBasePrice >= 0
    requires players[i].leftAdvancedPrice >= 0 && players[i].rightAdvancedPrice >= 0
    ensures TotalCoins(BuildSpec(players, i, card, effects)) == TotalCoins(players)
  {
    var cost := players[i].wonder.value.stageCosts[players[i].wonderStage];
    var paid := PayCostSpec(players, i, cost);
    PayCostConservesCoins(players, i, cost);
    var me := paid[i];
    TotalCoinsUpdate(paid, i, WithStageEffect(me.(hand := RemoveFirst(me.hand, card), wonderStage := me.wonderStage + 1,
                                  wonderCards := me.wonderCards + [card]), effects));
  }

  /** canBuildWonderWithCard, corrected guard. */
  method CanBuildWonderWithCard(players: seq<PlayerState>, i: int) returns (r: Result<bool>)
    requires HasNeighbours(players, i)
    ensures r == CanBuildSpec(players, i)
  {
    var p := players[i];
    if p.wonder.None? {
      return Throw(NullPointer);
    }
    var w := p.wonder.value;
    if AllStagesBuilt(p.wonderStage, w.numberOfStages) {
      return Ok(false);
    }
    if !(0 <= p.wonderStage < |w.stageCosts|) {
      return Throw(IndexOutOfBounds);
    }
    var ok := CanAffordCost(players, i, w.stageCosts[p.wonderStage]);
    return Ok(ok);
  }

  /** buildWonderWithCard: on a refusal (false or an exception) nothing changes. */
  method BuildWonderWithCard(g: Game, i: int, card: Card, effects: map<string, Effect>) returns (r: Result<bool>)
    requires HasNeighbours(g.players, i)
    modifies g`players
    ensures r == CanBuildSpec(old(g.players), i)
    ensures r == Ok(true) ==> g.players == BuildSpec(old(g.players), i, card, effects)
    ensures r != Ok(true) ==> g.players == old(g.players)
  {
    r := CanBuildWonderWithCard(g.players, i);
    if r == Ok(true) {
      ghost var before := g.players;
      var cost := g.players[i].wonder.value.stageCosts[g.players[i].wonderStage];
      PayCost(g, i, cost);
      ghost var paid := g.players;
      var me := g.players[i];
      me := me.(hand := RemoveFirst(me.hand, card), wonderStage := me.wonderStage + 1,
                wonderCards := me.wonderCards + [card]);
      me := WithStageEffect(me, effects);
      assert paid[i := me] == BuildSpec(before, i, card, effects);
      g.players := g.players[i := me];
    }
  }
}
