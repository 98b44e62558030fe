/** Executing effects on a player: an effect's parameter string is split on '|', each
    part is trimmed and applied in turn (victory points, coins, military, trading
    prices, produced resources or science, or a keyword), and the first part that
    fails stops the run without undoing the parts before it. */
module EffectExecutor {
  import opened Common
  import opened JavaText
  import opened Ressources
  import opened Entities
  import opened GameEntities

  /** Effect-parameter indices 0..8. */
  const ResourceOrder: seq<Resource> :=
    [STONE, WOOD, ORE, BRICK, GLASS, PAPER, TEXTILE, MUTABLE_BASE, MUTABLE_ADVANCED]

  /** Effect-parameter indices 9..12, less the offset 9. */
  const ScienceOrder: seq<Science> := [TABLET, COMPASS, GEAR, MUTABLE]

  predicate StartsWith(s: string, prefix: string)
  {
    prefix <= s
  }

  /** mapMutablePair: two distinct base-resource indices, in either order, name the
      pair resource offering exactly those two; anything else names nothing. */
  function MapMutablePair(a: int, b: int): (r: Option<Resource>)
    ensures r == MapMutablePairOrdered(b, a)
    ensures r.Some? <==> 0 <= a <= 3 && 0 <= b <= 3 && a != b
    ensures r.Some? ==>
      (IsMutablePair(r.value)
       && {PairOptions(r.value).value.0, PairOptions(r.value).value.1} == {ResourceOrder[a], ResourceOrder[b]})
  {
    MapMutablePairOrdered(a, b)
  }

  function MapMutablePairOrdered(a: int, b: int): Option<Resource>
  {
    if (a == 0 && b == 1) || (a == 1 && b == 0) then Some(STONE_WOOD)
    else if (a == 0 && b == 2) || (a == 2 && b == 0) then Some(STONE_ORE)
    else if (a == 0 && b == 3) || (a == 3 && b == 0) then Some(STONE_BRICK)
    else if (a == 1 && b == 2) || (a == 2 && b == 1) then Some(WOOD_ORE)
    else if (a == 1 && b == 3) || (a == 3 && b == 1) then Some(WOOD_BRICK)
    else if (a == 2 && b == 3) || (a == 3 && b == 2) then Some(ORE_BRICK)
    else None
  }

  /** applyPriceMultiplier: side 0 sets the left base price, 1 the right base price,
      2 both advanced prices; any other side changes nothing. */
  function PriceUpdate(p: PlayerState, side: int, price: int): (r: PlayerState)
    ensures side == 0 ==> r == p.(leftBasePrice := price)
    ensures side == 1 ==> r == p.(rightBasePrice := price)
    ensures side == 2 ==> r == p.(leftAdvancedPrice := price, rightAdvancedPrice := price)
    ensures side !in {0, 1, 2} ==> r == p
  {
    if side == 0 then p.(leftBasePrice := price)
    else if side == 1 then p.(rightBasePrice := price)
    else if side == 2 then p.(leftAdvancedPrice := price, rightAdvancedPrice := price)
    else p
  }

  /** Map.merge with Integer::sum on the science counts. */
  function MergeScience(m: map<Science, int>, s: Science, v: int): (m': map<Science, int>)
    ensures s in m' && m'[s] == (if s in m then m[s] else 0) + v
    ensures forall t :: t != s ==> (t in m' <==> t in m) && (t in m ==> m'[t] == m[t])
  {
    m[s := (if s in m then m[s] else 0) + v]
  }

  /** countCardsByType on a possibly missing neighbour: a missing one counts 0. */
  function CountAt(players: seq<PlayerState>, k: Option<nat>, t: CardType): nat
  {
    if k.None? || k.value >= |players| then 0 else CountOfType(players[k.value].playedCards, t)
  }

  /** applySpecialKeyword: Some(new state) for a known keyword, None otherwise. */
  function SpecialKeyword(players: seq<PlayerState>, i: nat, param: string): (r: Option<PlayerState>)
    requires i < |players|
    ensures r.Some? <==> param in {"VINEYARD", "LIGHTHOUSE", "HAVEN", "CHAMBER_OF_COMMERCE", "BUILD_FROM_DISCARD"}
    ensures r.Some? ==> r.value == players[i].(coins := r.value.coins) && r.value.coins >= players[i].coins
  {
    var p := players[i];
    if param == "VINEYARD" then
      var brownCount := CountOfType(p.playedCards, BROWN) + CountAt(players, p.leftNeighbor, BROWN)
                        + CountAt(players, p.rightNeighbor, BROWN);
      Some(if brownCount > 0 then p.(coins := p.coins + brownCount) else p)
    else if param == "LIGHTHOUSE" then
      var yellowCount := CountOfType(p.playedCards, YELLOW);
      Some(if yellowCount > 0 then p.(coins := p.coins + yellowCount) else p)
    else if param == "HAVEN" then
      var brownCount := CountOfType(p.playedCards, BROWN);
      Some(if brownCount > 0 then p.(coins := p.coins + brownCount) else p)
    else if param == "CHAMBER_OF_COMMERCE" then
      var yellowCount := CountOfType(p.playedCards, YELLOW);
      Some(if yellowCount > 0 then p.(coins := p.coins + yellowCount * 2) else p)
    else if param == "BUILD_FROM_DISCARD" then Some(p)
    else None
  }

  /** What a parameter matching no handler does: a keyword applies, anything else is
      accepted without change. */
  function Fallthrough(players: seq<PlayerState>, i: nat, param: string): (r: (bool, PlayerState))
    requires i < |players|
    ensures r.0 && SameButEffectFields(players[i], r.1)
  {
    match SpecialKeyword(players, i, param)
    case Some(p) => (true, p)
    case None => (true, players[i])
  }

  /** The fields an effect part may change: points, coins, military, prices and the
      resource and science counts. */
  predicate SameButEffectFields(a: PlayerState, b: PlayerState)
  {
    a.(coins := b.coins, victoryPoints := b.victoryPoints, militaryPoints := b.militaryPoints,
       resources := b.resources, science := b.science,
       leftBasePrice := b.leftBasePrice, rightBasePrice := b.rightBasePrice,
       leftAdvancedPrice := b.leftAdvancedPrice, rightAdvancedPrice := b.rightAdvancedPrice) == b
  }

  /** The "index:count" handler; a pair index "a_b" names a pair resource. */
  function ApplyIndexed(players: seq<PlayerState>, i: nat, param: string): (r: (bool, PlayerState))
    requires i < |players|
    ensures !r.0 ==> r.1 == players[i]
    ensures SameButEffectFields(players[i], r.1)
  {
    var p := players[i];
    var parts := Split(param, ':');
    if |parts| < 2 then (false, p)
    else if '_' in parts[0] then
      var indices := Split(parts[0], '_');
      match ParseInt(parts[1])
      case None => (false, p)
      case Some(count) =>
        if |indices| < 2 || ParseInt(indices[0]).None? || ParseInt(indices[1]).None? then (false, p)
        else
          match MapMutablePair(ParseInt(indices[0]).value, ParseInt(indices[1]).value)
          case Some(pair) => (true, p.(resources := Merge(p.resources, pair, count)))
          case None => Fallthrough(players, i, param)
    else
      match (ParseInt(parts[0]), ParseInt(parts[1]))
      case (Some(index), Some(count)) =>
        if 0 <= index < |ResourceOrder| then (true, p.(resources := Merge(p.resources, ResourceOrder[index], count)))
        else if 9 <= index < 9 + |ScienceOrder| then (true, p.(science := MergeScience(p.science, ScienceOrder[index - 9], count)))
        else Fallthrough(players, i, param)
      case _ => (false, p)
  }

  /** applySingleParameter on one trimmed part: (accepted, the player's new state).
      A rejected part changes nothing. */
  function ApplySingle(players: seq<PlayerState>, i: nat, param: string): (r: (bool, PlayerState))
    requires i < |players|
    ensures !r.0 ==> r.1 == players[i]
    ensures SameButEffectFields(players[i], r.1)
  {
    var p := players[i];
    if StartsWith(param, "VP:") then
      match ParseInt(param[3..])
      case None => (false, p)
      case Some(n) => (true, p.(victoryPoints := p.victoryPoints + n))
    else if StartsWith(param, "COINS:") then
      match ParseInt(param[6..])
      case None => (false, p)
      case Some(n) => (true, p.(coins := p.coins + n))
    else if StartsWith(param, "MIL:") then
      match ParseInt(param[4..])
      case None => (false, p)
      case Some(n) => (true, p.(militaryPoints := p.militaryPoints + n))
    else if StartsWith(param, "PRICE:") then
      var parts := Split(param[6..], ':');
      if |parts| < 2 || ParseInt(parts[0]).None? || ParseInt(parts[1]).None? then (false, p)
      else (true, PriceUpdate(p, ParseInt(parts[0]).value, ParseInt(parts[1]).value))
    else if ':' in param then ApplyIndexed(players, i, param)
    else Fallthrough(players, i, param)
  }

  /** The loop of applyEffect over the parts, left to right, stopping at the first
      rejected part; the parts before it stay applied. */
  function ApplyParts(players: seq<PlayerState>, i: nat, parts: seq<string>): (r: (bool, seq<PlayerState>))
    requires i < |players|
    ensures |r.1| == |players|
    decreases |parts|
  {
    if parts == [] then (true, players)
    else
      var (ok, p) := ApplySingle(players, i, Trim(parts[0]));
      if !ok then (false, players)
      else ApplyParts(players[i := p], i, parts[1..])
  }

  /** applyEffect: a missing effect or missing or empty parameters are rejected with no
      change; otherwise the '|'-separated parts are applied. */
  function ApplyEffectSpec(players: seq<PlayerState>, i: nat, effect: Option<Effect>): (r: (bool, seq<PlayerState>))
    requires i < |players|
    ensures |r.1| == |players|
    ensures effect.None? || effect.value.parameters.None? || effect.value.parameters.value == "" ==> r == (false, players)
  {
    if effect.None? || effect.value.parameters.None? || effect.value.parameters.value == "" then (false, players)
    else ApplyParts(players, i, Split(effect.value.parameters.value, '|'))
  }

  // ================================================================ properties

  /** Effects only ever touch the acting seat, and only its effect fields. */
  lemma {:induction false} ApplyPartsOnlySeat(players: seq<PlayerState>, i: nat, parts: seq<string>)
    requires i < |players|
    ensures var r := ApplyParts(players, i, parts).1;
      SameButEffectFields(players[i], r[i]) && forall k :: 0 <= k < |players| && k != i ==> r[k] == players[k]
    decreases |parts|
  {
    if parts != [] {
      var (ok, p) := ApplySingle(players, i, Trim(parts[0]));
      if ok {
        ApplyPartsOnlySeat(players[i := p], i, parts[1..]);
      }
    }
  }

  /** Running a + b is running a, then, only if every part of a was accepted, b from
      where a left off: a failure stops the run and keeps what was applied. */
  lemma {:induction false} ApplyPartsAppend(players: seq<PlayerState>, i: nat, a: seq<string>, b: seq<string>)
    requires i < |players|
    ensures ApplyParts(players, i, a + b) ==
      var (ok, ps) := ApplyParts(players, i, a);
      if ok then ApplyParts(ps, i, b) else (false, ps)
    decreases |a|
  {
    if a == [] {
      assert a + b == b;
    } else {
      assert (a + b)[0] == a[0] && (a + b)[1..] == a[1..] + b;
      var (ok, p) := ApplySingle(players, i, Trim(a[0]));
      if ok {
        ApplyPartsAppend(players[i := p], i, a[1..], b);
      }
    }
  }

  /** A failed run leaves the seat exactly as the accepted prefix of parts left it:
      if the first part is rejected nothing at all changes. */
  lemma ApplyPartsFirstRejected(players: seq<PlayerState>, i: nat, parts: seq<string>)
    requires i < |players| && parts != [] && !ApplySingle(players, i, Trim(parts[0])).0
    ensures ApplyParts(players, i, parts) == (false, players)
  {
  }

  /** "VP:n" adds n to victory points. */
  lemma VictoryPointsParameter(players: seq<PlayerState>, i: nat, n: int)
    requires i < |players| && IntMin <= n <= IntMax
    ensures ApplySingle(players, i, "VP:" + IntToString(n)) == (true, players[i].(victoryPoints := players[i].victoryPoints + n))
  {
    ParseIntToString(n);
    assert ("VP:" + IntToString(n))[3..] == IntToString(n);
  }

  /** "COINS:n" adds n to coins. */
  lemma CoinsParameter(players: seq<PlayerState>, i: nat, n: int)
    requires i < |players| && IntMin <= n <= IntMax
    ensures ApplySingle(players, i, "COINS:" + IntToString(n)) == (true, players[i].(coins := players[i].coins + n))
  {
    ParseIntToString(n);
    assert ("COINS:" + IntToString(n))[6..] == IntToString(n);
    assert ("COINS:" + IntToString(n))[0] == 'C';
  }

  /** "MIL:n" adds n to military points. */
  lemma MilitaryParameter(players: seq<PlayerState>, i: nat, n: int)
    requires i < |players| && IntMin <= n <= IntMax
    ensures ApplySingle(players, i, "MIL:" + IntToString(n)) == (true, players[i].(militaryPoints := players[i].militaryPoints + n))
  {
    ParseIntToString(n);
    assert ("MIL:" + IntToString(n))[4..] == IntToString(n);
    assert ("MIL:" + IntToString(n))[0] == 'M';
  }

  /** A number that does not parse makes the part fail with no change. */
  lemma NumericParseErrors(players: seq<PlayerState>, i: nat, text: string)
    requires i < |players| && ParseInt(text).None?
    ensures ApplySingle(players, i, "VP:" + text) == (false, players[i])
    ensures ApplySingle(players, i, "COINS:" + text) == (false, players[i])
    ensures ApplySingle(players, i, "MIL:" + text) == (false, players[i])
  {
    assert ("VP:" + text)[3..] == text;
    assert ("COINS:" + text)[6..] == text;
    assert ("MIL:" + text)[4..] == text;
    assert ("COINS:" + text)[0] == 'C' && ("MIL:" + text)[0] == 'M';
  }

  /** "PRICE:s:p" sets the prices of side s to p. */
  lemma PriceParameter(players: seq<PlayerState>, i: nat, side: int, price: int)
    requires i < |players| && IntMin <= side <= IntMax && IntMin <= price <= IntMax
    ensures ApplySingle(players, i, "PRICE:" + IntToString(side) + ":" + IntToString(price))
         == (true, PriceUpdate(players[i], side, price))
  {
    var param := "PRICE:" + IntToString(side) + ":" + IntToString(price);
    assert param[6..] == IntToString(side) + ":" + IntToString(price);
    PriceBranch(players, i, param);
    NumberPair(side, price);
  }

  /** A part starting with "PRICE:" is handled as a price. */
  lemma PriceBranch(players: seq<PlayerState>, i: nat, param: string)
    requires i < |players| && StartsWith(param, "PRICE:")
    ensures var parts := Split(param[6..], ':');
      ApplySingle(players, i, param)
      == if |parts| < 2 || ParseInt(parts[0]).None? || ParseInt(parts[1]).None? then (false, players[i])
         else (true, PriceUpdate(players[i], ParseInt(parts[0]).value, ParseInt(parts[1]).value))
  {
    assert param[0] == 'P';
  }

  /** "a:b" of two numbers splits into the two numbers. */
  lemma NumberPair(a: int, b: int)
    requires IntMin <= a <= IntMax && IntMin <= b <= IntMax
    ensures var parts := Split(IntToString(a) + ":" + IntToString(b), ':');
      parts == [IntToString(a), IntToString(b)] && ParseInt(parts[0]) == Some(a) && ParseInt(parts[1]) == Some(b)
  {
    IntToStringChars(a);
    IntToStringChars(b);
    assert IntToString(a) + ":" + IntToString(b) == IntToString(a) + [':'] + IntToString(b);
    SplitPair(IntToString(a), IntToString(b), ':');
    ParseIntToString(a);
    ParseIntToString(b);
  }

  /** "k:c" adds c to resource k for 0 <= k <= 8 and to science k - 9 for 9 <= k <= 12. */
  lemma IndexedParameter(players: seq<PlayerState>, i: nat, k: int, c: int)
    requires i < |players| && 0 <= k <= 12 && IntMin <= c <= IntMax
    ensures var p := players[i];
      ApplySingle(players, i, IntToString(k) + ":" + IntToString(c))
      == (true, if k <= 8 then p.(resources := Merge(p.resources, ResourceOrder[k], c))
                else p.(science := MergeScience(p.science, ScienceOrder[k - 9], c)))
  {
    var param := IntToString(k) + ":" + IntToString(c);
    IntToStringChars(k);
    assert IsDigit(param[0]);
    assert ':' in param by { assert param[|IntToString(k)|] == ':'; }
    IndexedBranch(players, i, param);
    IndexedPair(players, i, k, c);
  }

  /** A part starting with a digit and holding a ':' goes to the "index:count" handler. */
  lemma IndexedBranch(players: seq<PlayerState>, i: nat, param: string)
    requires i < |players| && param != [] && IsDigit(param[0]) && ':' in param
    ensures ApplySingle(players, i, param) == ApplyIndexed(players, i, param)
  {
    assert param[0] != 'V' && param[0] != 'C' && param[0] != 'M' && param[0] != 'P';
  }

  /** The "index:count" handler on two numbers with the index in range. */
  lemma IndexedPair(players: seq<PlayerState>, i: nat, k: int, c: int)
    requires i < |players| && 0 <= k <= 12 && IntMin <= c <= IntMax
    ensures var p := players[i];
      ApplyIndexed(players, i, IntToString(k) + ":" + IntToString(c))
      == (true, if k <= 8 then p.(resources := Merge(p.resources, ResourceOrder[k], c))
                else p.(science := MergeScience(p.science, ScienceOrder[k - 9], c)))
  {
    IntToStringChars(k);
    NumberPair(k, c);
    assert '_' !in IntToString(k);
  }

  /** A string without ':' starts with none of the "NAME:" prefixes. */
  lemma NoColonNoPrefix(param: string, prefix: string)
    requires ':' !in param && ':' in prefix
    ensures !StartsWith(param, prefix)
  {
  }

  /** A part with no ':' reaches the keyword handler. */
  lemma NoColonFallsThrough(players: seq<PlayerState>, i: nat, param: string)
    requires i < |players| && ':' !in param
    ensures ApplySingle(players, i, param) == Fallthrough(players, i, param)
  {
    NoColonNoPrefix(param, "VP:");
    NoColonNoPrefix(param, "COINS:");
    NoColonNoPrefix(param, "MIL:");
    NoColonNoPrefix(param, "PRICE:");
  }

  /** A part with no ':' that is no keyword is accepted and changes nothing. */
  lemma UnknownParameterAccepted(players: seq<PlayerState>, i: nat, param: string)
    requires i < |players| && ':' !in param
    requires param !in {"VINEYARD", "LIGHTHOUSE", "HAVEN", "CHAMBER_OF_COMMERCE", "BUILD_FROM_DISCARD"}
    ensures ApplySingle(players, i, param) == (true, players[i])
  {
    NoColonFallsThrough(players, i, param);
  }

  /** The coin keywords: VINEYARD pays one coin per brown card of the player and of both
      neighbours, HAVEN per own brown card, LIGHTHOUSE per own yellow card, and
      CHAMBER_OF_COMMERCE two per own yellow card. */
  lemma KeywordCoins(players: seq<PlayerState>, i: nat)
    requires i < |players|
    ensures var p := players[i];
      ApplySingle(players, i, "VINEYARD").1.coins == p.coins + CountOfType(p.playedCards, BROWN)
        + CountAt(players, p.leftNeighbor, BROWN) + CountAt(players, p.rightNeighbor, BROWN)
      && ApplySingle(players, i, "HAVEN").1.coins == p.coins + CountOfType(p.playedCards, BROWN)
      && ApplySingle(players, i, "LIGHTHOUSE").1.coins == p.coins + CountOfType(p.playedCards, YELLOW)
      && ApplySingle(players, i, "CHAMBER_OF_COMMERCE").1.coins == p.coins + 2 * CountOfType(p.playedCards, YELLOW)
      && ApplySingle(players, i, "BUILD_FROM_DISCARD") == (true, p)
  {
    NoColonFallsThrough(players, i, "VINEYARD");
    NoColonFallsThrough(players, i, "HAVEN");
    NoColonFallsThrough(players, i, "LIGHTHOUSE");
    NoColonFallsThrough(players, i, "CHAMBER_OF_COMMERCE");
    NoColonFallsThrough(players, i, "BUILD_FROM_DISCARD");
  }

  // ================================================================ the service

  /** applyEffect, applying the parts in a loop. */
  method ApplyEffect(g: Game, i: nat, effect: Option<Effect>) returns (applied: bool)
    requires i < |g.players|
    modifies g`players
    ensures (applied, g.players) == ApplyEffectSpec(old(g.players), i, effect)
  {
    if effect.None? || effect.value.parameters.None? || effect.value.parameters.value == "" {
      return false;
    }
    var paramParts := Split(effect.value.parameters.value, '|');
    ghost var target := ApplyParts(g.players, i, paramParts);
    var k := 0;
    while k < |paramParts|
      invariant 0 <= k <= |paramParts| && |g.players| == |old(g.players)|
      invariant ApplyParts(g.players, i, paramParts[k..]) == target
    {
      assert paramParts[k..][0] == paramParts[k] && paramParts[k..][1..] == paramParts[k + 1..];
      var (ok, p) := ApplySingle(g.players, i, Trim(paramParts[k]));
      if !ok {
        return false;
      }
      g.players := g.players[i := p];
      k := k + 1;
    }
    return true;
  }

  /** canApplyEffect: an effect can be applied when it exists and has a non-empty id. */
  function CanApplyEffect(effect: Option<Effect>): (b: bool)
  {
    effect.Some? && effect.value.effectId != ""
  }

  /** canApplyEffect looks only at the id, applyEffect only at the parameters: both refuse
      a missing effect, but an effect without an id still applies its parameters, and an
      effect with an id but no parameters is refused by applyEffect alone. */
  lemma CanApplyIsNotApply(players: seq<PlayerState>, i: nat, timing: EffectTiming, params: string)
    requires i < |players|
    ensures !CanApplyEffect(None) && ApplyEffectSpec(players, i, None) == (false, players)
    ensures !CanApplyEffect(Some(Effect("", timing, Some(params))))
    ensures ApplyEffectSpec(players, i, Some(Effect("", timing, Some(params))))
         == ApplyEffectSpec(players, i, Some(Effect("X", timing, Some(params))))
    ensures CanApplyEffect(Some(Effect("X", timing, None)))
         && ApplyEffectSpec(players, i, Some(Effect("X", timing, None))) == (false, players)
  {
  }

  /** The index of the first pending effect with the given id. */
  function FirstWithId(effects: seq<Effect>, effectId: string): (r: Option<nat>)
    ensures r.None? <==> forall k :: 0 <= k < |effects| ==> effects[k].effectId != effectId
    ensures r.Some? ==>
      (r.value < |effects| && effects[r.value].effectId == effectId
       && forall k :: 0 <= k < r.value ==> effects[k].effectId != effectId)
  {
    if effects == [] then None
    else if effects[0].effectId == effectId then Some(0)
    else match FirstWithId(effects[1..], effectId)
      case None => None
      case Some(k) => Some(k + 1)
  }

  /** removePendingEffect: the first pending effect with the id is removed and true is
      returned; a missing id, or no such effect, gives false and no change. */
  function RemovePendingSpec(p: PlayerState, effectId: Option<string>): (r: (bool, PlayerState))
    ensures r.1 == p.(pendingEffects := r.1.pendingEffects)
    ensures r.0 <==> effectId.Some? && exists k :: 0 <= k < |p.pendingEffects| && p.pendingEffects[k].effectId == effectId.value
    ensures !r.0 ==> r.1 == p
    ensures r.0 ==> |r.1.pendingEffects| == |p.pendingEffects| - 1
    ensures r.0 ==> exists k :: 0 <= k < |p.pendingEffects| && p.pendingEffects[k].effectId == effectId.value &&
                      multiset(r.1.pendingEffects) == multiset(p.pendingEffects) - multiset{p.pendingEffects[k]}
  {
    if effectId.None? then (false, p)
    else match FirstWithId(p.pendingEffects, effectId.value)
      case None => (false, p)
      case Some(k) =>
        assert p.pendingEffects == p.pendingEffects[..k] + [p.pendingEffects[k]] + p.pendingEffects[k + 1..];
        (true, p.(pendingEffects := RemoveAt(p.pendingEffects, k)))
  }

  method RemovePendingEffect(g: Game, i: nat, effectId: Option<string>) returns (removed: bool)
    requires i < |g.players|
    modifies g`players
    ensures |g.players| == |old(g.players)|
    ensures g.players == old(g.players)[i := g.players[i]]
    ensures (removed, g.players[i]) == RemovePendingSpec(old(g.players[i]), effectId)
  {
    if effectId.None? {
      return false;
    }
    var pending := g.players[i].pendingEffects;
    var k := 0;
    while k < |pending| && pending[k].effectId != effectId.value
      invariant 0 <= k <= |pending|
      invariant forall j :: 0 <= j < k ==> pending[j].effectId != effectId.value
    {
      k := k + 1;
    }
    if k == |pending| {
      return false;
    }
    g.players := g.players[i := g.players[i].(pendingEffects := RemoveAt(pending, k))];
    removed := true;
  }
}
