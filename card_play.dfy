/** Playing and discarding a card: what a player is missing for a resource cost, how
    wildcards and two-way pairs cover it, how the rest is bought from the two
    neighbours (cheaper side first), and the coins that move when a cost is paid. */
module CardPlay {
  import opened Common
  import opened Ressources
  import opened Entities
  import opened GameEntities

  // ================================================================ step 1: shortfall

  /** Per concrete resource of the cost, how much the player's own production lacks;
      wildcard and pair keys of the cost are ignored. */
  function Missing(cost: Counts, own: Counts): (m: Counts)
    ensures forall r :: r in m <==> r in cost && IsRessource(r)
    ensures forall r :: r in m ==> m[r] >= 0 && m[r] >= cost[r] - Get(own, r)
    ensures forall r :: r in m ==> (m[r] == 0 <==> Get(own, r) >= cost[r])
    ensures forall r :: r in m && m[r] > 0 ==> m[r] == cost[r] - Get(own, r)
  {
    map r | r in cost && IsRessource(r) :: Max(0, cost[r] - Get(own, r))
  }

  predicate InClass(r: Resource, base: bool)
  {
    if base then IsBaseRessource(r) else IsAdvancedRessource(r)
  }

  /** Sum of the entries of m, over rs, that belong to one class. */
  function ClassTotal(rs: seq<Resource>, m: Counts, base: bool): int
  {
    if rs == [] then 0
    else (if rs[0] in m && InClass(rs[0], base) then m[rs[0]] else 0) + ClassTotal(rs[1..], m, base)
  }

  /** calculateMissingResourceCount: total shortfall of the base (or advanced) class. */
  function MissingCount(m: Counts, base: bool): int
  {
    ClassTotal(ConcreteResources, m, base)
  }

  /** A class total of non-negative entries is non-negative, and it is zero when
      every entry is zero. */
  lemma {:induction false} ClassTotalZero(rs: seq<Resource>, m: Counts, base: bool)
    requires forall r :: r in m ==> m[r] >= 0
    ensures ClassTotal(rs, m, base) >= 0
    ensures (forall r :: r in m ==> m[r] == 0) ==> ClassTotal(rs, m, base) == 0
  {
    if rs != [] {
      ClassTotalZero(rs[1..], m, base);
    }
  }

  // ================================================================ step 2: pairs, as checked

  function OptionList(p: Resource): (opts: seq<Resource>)
    requires IsMutablePair(p)
    ensures |opts| == 2 && IsBaseRessource(opts[0]) && IsBaseRessource(opts[1])
  {
    var (a, b) := PairOptions(p).value; [a, b]
  }

  /** The inner option loop of canAffordCost: uses up to pc pairs on each option,
      stopping once the pairs or the aggregate base shortfall run out. */
  function AffordOptions(opts: seq<Resource>, m: Counts, mb: int, pc: int): (Counts, int)
  {
    if opts == [] then (m, mb)
    else
      var o := opts[0];
      if o in m && m[o] > 0 then
        var used := Min(m[o], pc);
        var m', mb', pc' := m[o := m[o] - used], mb - used, pc - used;
        if pc' == 0 || mb' <= 0 then (m', mb') else AffordOptions(opts[1..], m', mb', pc')
      else AffordOptions(opts[1..], m, mb, pc)
  }

  /** The pair loop of canAffordCost over the constants ps, in order. */
  function AffordPairs(ps: seq<Resource>, own: Counts, m: Counts, mb: int): (Counts, int)
  {
    if ps == [] then (m, mb)
    else
      var p := ps[0];
      var (m', mb') :=
        if IsMutablePair(p) && Get(own, p) > 0 && mb > 0 then AffordOptions(OptionList(p), m, mb, Get(own, p))
        else (m, mb);
      AffordPairs(ps[1..], own, m', mb')
  }

  /** Once the base shortfall is covered, the pair loop changes nothing. */
  lemma {:induction false} AffordPairsIdle(ps: seq<Resource>, own: Counts, m: Counts, mb: int)
    requires mb <= 0
    ensures AffordPairs(ps, own, m, mb) == (m, mb)
  {
    if ps != [] {
      AffordPairsIdle(ps[1..], own, m, mb);
    }
  }

  // ================================================================ step 2: wildcards and pairs, as paid

  /** The wildcard loops of payCost: each entry of the class, in order, is reduced by
      as many of the remaining wildcards as it needs. */
  function PayWildcards(rs: seq<Resource>, m: Counts, rem: int, base: bool): Counts
  {
    if rs == [] then m
    else
      var r := rs[0];
      if r in m && InClass(r, base) && m[r] > 0 && rem > 0 then
        var used := Min(m[r], rem);
        PayWildcards(rs[1..], m[r := m[r] - used], rem - used, base)
      else PayWildcards(rs[1..], m, rem, base)
  }

  /** The inner option loop of payCost: stops only when the pairs run out. */
  function PayOptions(opts: seq<Resource>, m: Counts, pc: int): Counts
  {
    if opts == [] then m
    else
      var o := opts[0];
      if o in m && m[o] > 0 then
        var used := Min(m[o], pc);
        if pc - used == 0 then m[o := m[o] - used] else PayOptions(opts[1..], m[o := m[o] - used], pc - used)
      else PayOptions(opts[1..], m, pc)
  }

  function PayPairs(ps: seq<Resource>, own: Counts, m: Counts): Counts
  {
    if ps == [] then m
    else
      var p := ps[0];
      var m' := if IsMutablePair(p) && Get(own, p) > 0 then PayOptions(OptionList(p), m, Get(own, p)) else m;
      PayPairs(ps[1..], own, m')
  }

  /** What payCost still has to buy after the player's own resources, wildcards and pairs. */
  function PayShortfall(cost: Counts, own: Counts): Counts
  {
    var m := Missing(cost, own);
    var m1 := PayWildcards(ConcreteResources, m, Get(own, MUTABLE_BASE), true);
    var m2 := PayWildcards(ConcreteResources, m1, Get(own, MUTABLE_ADVANCED), false);
    PayPairs(AllResources, own, m2)
  }

  /** Entries stay between zero and what they were, and keep their keys. */
  predicate Reduced(m': Counts, m: Counts)
  {
    m'.Keys == m.Keys && forall r :: r in m ==> 0 <= m'[r] <= m[r]
  }

  lemma {:induction false} PayWildcardsReduce(rs: seq<Resource>, m: Counts, rem: int, base: bool)
    requires forall r :: r in m ==> m[r] >= 0
    ensures Reduced(PayWildcards(rs, m, rem, base), m)
  {
    if rs != [] {
      var r := rs[0];
      if r in m && InClass(r, base) && m[r] > 0 && rem > 0 {
        var used := Min(m[r], rem);
        PayWildcardsReduce(rs[1..], m[r := m[r] - used], rem - used, base);
      } else {
        PayWildcardsReduce(rs[1..], m, rem, base);
      }
    }
  }

  lemma {:induction false} PayOptionsReduce(opts: seq<Resource>, m: Counts, pc: int)
    requires forall r :: r in m ==> m[r] >= 0
    requires pc > 0
    ensures Reduced(PayOptions(opts, m, pc), m)
  {
    if opts != [] {
      var o := opts[0];
      if o in m && m[o] > 0 {
        var used := Min(m[o], pc);
        if pc - used != 0 {
          PayOptionsReduce(opts[1..], m[o := m[o] - used], pc - used);
        }
      } else {
        PayOptionsReduce(opts[1..], m, pc);
      }
    }
  }

  lemma {:induction false} PayPairsReduce(ps: seq<Resource>, own: Counts, m: Counts)
    requires forall r :: r in m ==> m[r] >= 0
    ensures Reduced(PayPairs(ps, own, m), m)
  {
    if ps != [] {
      var p := ps[0];
      var m' := if IsMutablePair(p) && Get(own, p) > 0 then PayOptions(OptionList(p), m, Get(own, p)) else m;
      if IsMutablePair(p) && Get(own, p) > 0 {
        PayOptionsReduce(OptionList(p), m, Get(own, p));
      }
      PayPairsReduce(ps[1..], own, m');
    }
  }

  /** Wildcards and pairs only ever lower a shortfall, never below zero, and never
      introduce a resource the cost did not ask for. */
  lemma PayShortfallBounds(cost: Counts, own: Counts)
    ensures Reduced(PayShortfall(cost, own), Missing(cost, own))
  {
    var m := Missing(cost, own);
    var m1 := PayWildcards(ConcreteResources, m, Get(own, MUTABLE_BASE), true);
    var m2 := PayWildcards(ConcreteResources, m1, Get(own, MUTABLE_ADVANCED), false);
    PayWildcardsReduce(ConcreteResources, m, Get(own, MUTABLE_BASE), true);
    PayWildcardsReduce(ConcreteResources, m1, Get(own, MUTABLE_ADVANCED), false);
    PayPairsReduce(AllResources, own, m2);
  }

  // ================================================================ step 3: neighbours

  function MergeAll(opts: seq<Resource>, acc: Counts, v: int): Counts
  {
    if opts == [] then acc else MergeAll(opts[1..], Merge(acc, opts[0], v), v)
  }

  /** The pair loop that adds a neighbour's pairs to both of their options; a pair
      is counted when either neighbour has one. */
  function AvailableFold(ps: seq<Resource>, res: Counts, other: Counts, acc: Counts): Counts
  {
    if ps == [] then acc
    else
      var p := ps[0];
      var acc' :=
        if IsMutablePair(p) && (Get(res, p) > 0 || Get(other, p) > 0) then MergeAll(OptionList(p), acc, Get(res, p))
        else acc;
      AvailableFold(ps[1..], res, other, acc')
  }

  /** What one neighbour (res) can sell, given the other neighbour's resources. */
  function Available(res: Counts, other: Counts): Counts
  {
    AvailableFold(AllResources, res, other, res)
  }

  lemma MergeAllStep(opts: seq<Resource>, j: nat, acc: Counts, v: int)
    requires j < |opts|
    ensures MergeAll(opts[j..], acc, v) == MergeAll(opts[j + 1..], Merge(acc, opts[j], v), v)
  {
    assert opts[j..][0] == opts[j] && opts[j..][1..] == opts[j + 1..];
  }

  lemma AvailableFoldStep(ps: seq<Resource>, k: nat, res: Counts, other: Counts, acc: Counts)
    requires k < |ps|
    ensures var p := ps[k];
      AvailableFold(ps[k..], res, other, acc)
      == AvailableFold(ps[k + 1..], res, other,
           if IsMutablePair(p) && (Get(res, p) > 0 || Get(other, p) > 0) then MergeAll(OptionList(p), acc, Get(res, p))
           else acc)
  {
    assert ps[k..][0] == ps[k] && ps[k..][1..] == ps[k + 1..];
  }

  predicate NonNegative(m: Counts)
  {
    forall r :: r in m ==> m[r] >= 0
  }

  lemma {:induction false} MergeAllGrows(opts: seq<Resource>, acc: Counts, v: int)
    requires v >= 0
    ensures forall r :: Get(MergeAll(opts, acc, v), r) >= Get(acc, r)
    ensures forall r :: r in opts ==> Get(MergeAll(opts, acc, v), r) >= Get(acc, r) + v
  {
    if opts != [] {
      MergeAllGrows(opts[1..], Merge(acc, opts[0], v), v);
    }
  }

  lemma {:induction false} AvailableFoldGrows(ps: seq<Resource>, res: Counts, other: Counts, acc: Counts)
    requires NonNegative(res)
    ensures forall r :: Get(AvailableFold(ps, res, other, acc), r) >= Get(acc, r)
    ensures forall p, o :: p in ps && IsMutablePair(p) && o in OptionList(p) ==>
      Get(AvailableFold(ps, res, other, acc), o) >= Get(acc, o) + Get(res, p)
  {
    if ps != [] {
      var p := ps[0];
      var acc' :=
        if IsMutablePair(p) && (Get(res, p) > 0 || Get(other, p) > 0) then MergeAll(OptionList(p), acc, Get(res, p))
        else acc;
      if IsMutablePair(p) && (Get(res, p) > 0 || Get(other, p) > 0) {
        MergeAllGrows(OptionList(p), acc, Get(res, p));
      }
      AvailableFoldGrows(ps[1..], res, other, acc');
    }
  }

  /** A neighbour offers at least its own stock of every resource, and each of its
      pairs counts in full toward both of the pair's options. */
  lemma AvailableCountsPairs(res: Counts, other: Counts)
    requires NonNegative(res)
    ensures forall r :: Get(Available(res, other), r) >= Get(res, r)
    ensures forall p, o :: IsMutablePair(p) && o in OptionList(p) ==>
      Get(Available(res, other), o) >= Get(res, o) + Get(res, p)
  {
    AvailableFoldGrows(AllResources, res, other, res);
    forall p | IsMutablePair(p) ensures p in AllResources {
      assert AllResources[Ordinal(p)] == p;
    }
  }

  // ================================================================ step 3: buying

  function LeftPrice(me: PlayerState, r: Resource): int
  {
    if IsBaseRessource(r) then me.leftBasePrice else me.leftAdvancedPrice
  }

  function RightPrice(me: PlayerState, r: Resource): int
  {
    if IsBaseRessource(r) then me.rightBasePrice else me.rightAdvancedPrice
  }

  /** Buying need units: as many as available from the cheaper side (left on a tie),
      the rest from the other side. Returns (coins to left, coins to right). */
  function BuyOne(need: int, aL: int, aR: int, pL: int, pR: int): (int, int)
  {
    if pL <= pR then
      var b := Min(need, aL);
      (b * pL, if need - b > 0 then (need - b) * pR else 0)
    else
      var b := Min(need, aR);
      (if need - b > 0 then (need - b) * pL else 0, b * pR)
  }

  /** The greedy split is the cheapest split that neighbours can supply. */
  lemma GreedyIsCheapest(need: int, aL: int, aR: int, pL: int, pR: int, x: int)
    requires 0 <= x <= need && x <= aL && need - x <= aR
    requires pL >= 0 && pR >= 0
    ensures BuyOne(need, aL, aR, pL, pR).0 + BuyOne(need, aL, aR, pL, pR).1 <= x * pL + (need - x) * pR
  {
    if pL <= pR {
      var b := Min(need, aL);
      assert b >= x;
      assert (b - x) * (pR - pL) >= 0;
      assert b * pL + (need - b) * pR == x * pL + (need - x) * pR - (b - x) * (pR - pL);
    } else {
      var y := need - x;
      var b := Min(need, aR);
      assert b >= y;
      assert (b - y) * (pL - pR) >= 0;
      assert (need - b) * pL + b * pR == x * pL + (need - x) * pR - (b - y) * (pL - pR);
    }
  }

  /** The buying loop of canAffordCost: None as soon as some shortfall exceeds what
      the two neighbours offer together, else the total price. */
  function AffordPurchase(rs: seq<Resource>, m: Counts, la: Counts, ra: Counts, me: PlayerState): Option<int>
  {
    if rs == [] then Some(0)
    else
      var r := rs[0];
      if r !in m || m[r] <= 0 then AffordPurchase(rs[1..], m, la, ra, me)
      else if Get(la, r) + Get(ra, r) < m[r] then None
      else if !(IsBaseRessource(r) || IsAdvancedRessource(r)) then AffordPurchase(rs[1..], m, la, ra, me)
      else
        var (cl, cr) := BuyOne(m[r], Get(la, r), Get(ra, r), LeftPrice(me, r), RightPrice(me, r));
        match AffordPurchase(rs[1..], m, la, ra, me)
        case None => None
        case Some(c) => Some(cl + cr + c)
  }

  /** One resource the neighbours cannot supply makes the whole purchase fail. */
  lemma {:induction false} AffordPurchaseShort(rs: seq<Resource>, m: Counts, la: Counts, ra: Counts, me: PlayerState, r: Resource)
    requires r in rs && r in m && m[r] > 0 && Get(la, r) + Get(ra, r) < m[r]
    ensures AffordPurchase(rs, m, la, ra, me) == None
  {
    if rs[0] != r {
      AffordPurchaseShort(rs[1..], m, la, ra, me, r);
    }
  }

  /** The buying loop of payCost: no availability check; (coins to left, coins to right). */
  function PayPurchase(rs: seq<Resource>, m: Counts, la: Counts, ra: Counts, me: PlayerState): (int, int)
  {
    if rs == [] then (0, 0)
    else
      var r := rs[0];
      var (tl, tr) := PayPurchase(rs[1..], m, la, ra, me);
      if r !in m || m[r] <= 0 || !(IsBaseRessource(r) || IsAdvancedRessource(r)) then (tl, tr)
      else
        var (cl, cr) := BuyOne(m[r], Get(la, r), Get(ra, r), LeftPrice(me, r), RightPrice(me, r));
        (cl + tl, cr + tr)
  }

  lemma {:induction false} PayPurchaseNonNegative(rs: seq<Resource>, m: Counts, la: Counts, ra: Counts, me: PlayerState)
    requires NonNegative(la) && NonNegative(ra)
    requires me.leftBasePrice >= 0 && me.rightBasePrice >= 0
    requires me.leftAdvancedPrice >= 0 && me.rightAdvancedPrice >= 0
    ensures PayPurchase(rs, m, la, ra, me).0 >= 0 && PayPurchase(rs, m, la, ra, me).1 >= 0
  {
    if rs != [] {
      PayPurchaseNonNegative(rs[1..], m, la, ra, me);
      var r := rs[0];
      if r in m && m[r] > 0 {
        BuyOneNonNegative(m[r], Get(la, r), Get(ra, r), LeftPrice(me, r), RightPrice(me, r));
      }
    }
  }

  lemma BuyOneNonNegative(need: int, aL: int, aR: int, pL: int, pR: int)
    requires need >= 0 && aL >= 0 && aR >= 0 && pL >= 0 && pR >= 0
    ensures BuyOne(need, aL, aR, pL, pR).0 >= 0 && BuyOne(need, aL, aR, pL, pR).1 >= 0
  {
    var b := Min(need, if pL <= pR then aL else aR);
    assert 0 <= b <= need;
    MulNonNegative(b, pL);
    MulNonNegative(b, pR);
    MulNonNegative(need - b, pL);
    MulNonNegative(need - b, pR);
  }

  lemma MulNonNegative(a: int, b: int)
    requires a >= 0 && b >= 0
    ensures a * b >= 0
  {
  }

  // ================================================================ the two queries

  /** canAffordCost: own resources, then the aggregate wildcard counts and the pairs;
      if a shortfall remains, every per-resource shortfall must be buyable from the
      neighbours for at most the player's coins. */
  function CanAffordSpec(players: seq<PlayerState>, i: int, cost: Counts): bool
    requires HasNeighbours(players, i)
  {
    var me := players[i];
    var own := me.resources;
    var m := Missing(cost, own);
    var mb := MissingCount(m, true) - Get(own, MUTABLE_BASE);
    var ma := MissingCount(m, false) - Get(own, MUTABLE_ADVANCED);
    var (m2, mb2) := AffordPairs(AllResources, own, m, mb);
    if mb2 <= 0 && ma <= 0 then true
    else
      var L := LeftOf(players, i).resources;
      var R := RightOf(players, i).resources;
      match AffordPurchase(ConcreteResources, m2, Available(L, R), Available(R, L), me)
      case None => false
      case Some(c) => c <= me.coins
  }

  /** canPlayCard: a card with a coin cost needs only the coins; a free-of-coins card
      needs its resource cost. */
  function CanPlaySpec(players: seq<PlayerState>, i: int, card: Card): bool
    requires HasNeighbours(players, i) && card.coinCost.Some?
  {
    if card.coinCost.value == 0 then CanAffordSpec(players, i, card.cost)
    else card.coinCost.value <= players[i].coins
  }

  /** A player whose own production covers every concrete resource of the cost can
      afford it, whatever the neighbours hold. */
  lemma OwnResourcesSuffice(players: seq<PlayerState>, i: int, cost: Counts)
    requires HasNeighbours(players, i)
    requires forall r :: r in cost && IsRessource(r) ==> Get(players[i].resources, r) >= cost[r]
    requires Get(players[i].resources, MUTABLE_BASE) >= 0 && Get(players[i].resources, MUTABLE_ADVANCED) >= 0
    ensures CanAffordSpec(players, i, cost)
  {
    var own := players[i].resources;
    var m := Missing(cost, own);
    ClassTotalZero(ConcreteResources, m, true);
    ClassTotalZero(ConcreteResources, m, false);
    var mb := MissingCount(m, true) - Get(own, MUTABLE_BASE);
    AffordPairsIdle(AllResources, own, m, mb);
  }

  /** When a shortfall survives the wildcards and pairs and one resource is short
      of what both neighbours offer together, the cost is unaffordable. */
  lemma ShortSupplyRejects(players: seq<PlayerState>, i: int, cost: Counts, r: Resource)
    requires HasNeighbours(players, i)
    requires
      var own := players[i].resources;
      var m := Missing(cost, own);
      var (m2, mb2) := AffordPairs(AllResources, own, m, MissingCount(m, true) - Get(own, MUTABLE_BASE));
      var L := LeftOf(players, i).resources;
      var R := RightOf(players, i).resources;
      !(mb2 <= 0 && MissingCount(m, false) - Get(own, MUTABLE_ADVANCED) <= 0)
      && IsRessource(r) && r in m2 && m2[r] > 0 && Get(Available(L, R), r) + Get(Available(R, L), r) < m2[r]
    ensures !CanAffordSpec(players, i, cost)
  {
    var own := players[i].resources;
    var m := Missing(cost, own);
    var (m2, mb2) := AffordPairs(AllResources, own, m, MissingCount(m, true) - Get(own, MUTABLE_BASE));
    var L := LeftOf(players, i).resources;
    var R := RightOf(players, i).resources;
    AffordPurchaseShort(ConcreteResources, m2, Available(L, R), Available(R, L), players[i], r);
  }

  // ================================================================ payment

  /** The coins payCost sends to the left and to the right neighbour. */
  function PaymentSpec(players: seq<PlayerState>, i: int, cost: Counts): (int, int)
    requires HasNeighbours(players, i)
  {
    var L := LeftOf(players, i).resources;
    var R := RightOf(players, i).resources;
    PayPurchase(ConcreteResources, PayShortfall(cost, players[i].resources), Available(L, R), Available(R, L), players[i])
  }

  function AddCoins(players: seq<PlayerState>, k: nat, delta: int): (r: seq<PlayerState>)
    requires k < |players|
    ensures |r| == |players|
  {
    players[k := players[k].(coins := players[k].coins + delta)]
  }

  /** Adds delta coins to seat k only when delta is positive. */
  function AddCoinsIfPositive(players: seq<PlayerState>, k: nat, delta: int): (r: seq<PlayerState>)
    requires k < |players|
    ensures |r| == |players|
  {
    if delta > 0 then AddCoins(players, k, delta) else players
  }

  /** Seat i pays toLeft + toRight; seat li receives toLeft and seat ri receives
      toRight, each only when positive. */
  function Transfer(players: seq<PlayerState>, i: nat, li: nat, ri: nat, toLeft: int, toRight: int): (r: seq<PlayerState>)
    requires i < |players| && li < |players| && ri < |players|
    ensures |r| == |players|
  {
    AddCoinsIfPositive(AddCoinsIfPositive(AddCoins(players, i, -(toLeft + toRight)), li, toLeft), ri, toRight)
  }

  lemma AddCoinsTotal(players: seq<PlayerState>, k: nat, delta: int)
    requires k < |players|
    ensures TotalCoins(AddCoins(players, k, delta)) == TotalCoins(players) + delta
  {
    TotalCoinsUpdate(players, k, players[k].(coins := players[k].coins + delta));
  }

  lemma AddCoinsIfPositiveTotal(players: seq<PlayerState>, k: nat, delta: int)
    requires k < |players|
    ensures TotalCoins(AddCoinsIfPositive(players, k, delta)) == TotalCoins(players) + Max(delta, 0)
  {
    if delta > 0 { AddCoinsTotal(players, k, delta); }
  }

  /** Non-negative transfers keep the table's coin total, whoever the seats are. */
  lemma TransferConserves(players: seq<PlayerState>, i: nat, li: nat, ri: nat, toLeft: int, toRight: int)
    requires i < |players| && li < |players| && ri < |players|
    requires toLeft >= 0 && toRight >= 0
    ensures TotalCoins(Transfer(players, i, li, ri, toLeft, toRight)) == TotalCoins(players)
  {
    var p1 := AddCoins(players, i, -(toLeft + toRight));
    var p2 := AddCoinsIfPositive(p1, li, toLeft);
    var t0, t1, t2 := TotalCoins(players), TotalCoins(p1), TotalCoins(p2);
    AddCoinsTotal(players, i, -(toLeft + toRight));
    assert t1 == t0 - (toLeft + toRight);
    AddCoinsIfPositiveTotal(p1, li, toLeft);
    assert t2 == t1 + toLeft;
    AddCoinsIfPositiveTotal(p2, ri, toRight);
  }

  /** payCost: the player pays the total, then each neighbour with a positive share
      receives it. */
  function PayCostSpec(players: seq<PlayerState>, i: int, cost: Counts): (r: seq<PlayerState>)
    requires HasNeighbours(players, i)
    ensures |r| == |players|
  {
    var shares := PaymentSpec(players, i, cost);
    Transfer(players, i, players[i].leftNeighbor.value, players[i].rightNeighbor.value, shares.0, shares.1)
  }

  /** Paying changes nothing but coins. */
  lemma PayCostOnlyCoins(players: seq<PlayerState>, i: int, cost: Counts)
    requires HasNeighbours(players, i)
    ensures var r := PayCostSpec(players, i, cost);
      forall k :: 0 <= k < |players| ==> r[k] == players[k].(coins := r[k].coins)
  {
    var shares := PaymentSpec(players, i, cost);
    TransferOnlyCoins(players, i, players[i].leftNeighbor.value, players[i].rightNeighbor.value, shares.0, shares.1);
  }

  lemma TransferOnlyCoins(players: seq<PlayerState>, i: nat, li: nat, ri: nat, toLeft: int, toRight: int)
    requires i < |players| && li < |players| && ri < |players|
    ensures var r := Transfer(players, i, li, ri, toLeft, toRight);
      forall k :: 0 <= k < |players| ==> r[k] == players[k].(coins := r[k].coins)
  {
    var p1 := AddCoins(players, i, -(toLeft + toRight));
    var p2 := AddCoinsIfPositive(p1, li, toLeft);
    var p3 := AddCoinsIfPositive(p2, ri, toRight);
    assert forall k :: 0 <= k < |players| ==> p1[k] == players[k].(coins := p1[k].coins);
    assert forall k :: 0 <= k < |players| ==> p2[k] == p1[k].(coins := p2[k].coins);
    assert forall k :: 0 <= k < |players| ==> p3[k] == p2[k].(coins := p3[k].coins);
  }

  /** With non-negative prices and neighbour stocks, paying moves coins around the
      table without creating or destroying any. */
  lemma PayCostConservesCoins(players: seq<PlayerState>, i: int, cost: Counts)
    requires HasNeighbours(players, i)
    requires NonNegative(LeftOf(players, i).resources) && NonNegative(RightOf(players, i).resources)
    requires players[i].leftBasePrice >= 0 && players[i].rightBasePrice >= 0
    requires players[i].leftAdvancedPrice >= 0 && players[i].rightAdvancedPrice >= 0
    ensures TotalCoins(PayCostSpec(players, i, cost)) == TotalCoins(players)
  {
    var L := LeftOf(players, i).resources;
    var R := RightOf(players, i).resources;
    AvailableCountsPairs(L, R);
    AvailableCountsPairs(R, L);
    NonNegativeAvailable(L, R);
    NonNegativeAvailable(R, L);
    PayPurchaseNonNegative(ConcreteResources, PayShortfall(cost, players[i].resources), Available(L, R), Available(R, L), players[i]);
    var shares := PaymentSpec(players, i, cost);
    TransferConserves(players, i, players[i].leftNeighbor.value, players[i].rightNeighbor.value, shares.0, shares.1);
  }

  lemma NonNegativeAvailable(res: Counts, other: Counts)
    requires NonNegative(res)
    ensures forall r :: r in Available(res, other) ==> Available(res, other)[r] >= 0
  {
    AvailableCountsPairs(res, other);
    forall r | r in Available(res, other) ensures Available(res, other)[r] >= 0 {
      assert Get(Available(res, other), r) >= Get(res, r);
      assert Get(res, r) >= 0;
    }
  }

  /** With three distinct seats, the payer loses exactly the two shares, each
      neighbour gains its positive share, and nobody else is touched. */
  lemma PayCostTransfers(players: seq<PlayerState>, i: int, cost: Counts)
    requires HasNeighbours(players, i)
    requires var li, ri := players[i].leftNeighbor.value, players[i].rightNeighbor.value; li != i && ri != i && li != ri
    ensures var shares := PaymentSpec(players, i, cost);
      var li, ri := players[i].leftNeighbor.value, players[i].rightNeighbor.value;
      var r := PayCostSpec(players, i, cost);
      r[i].coins == players[i].coins - (shares.0 + shares.1)
      && r[li].coins == players[li].coins + Max(shares.0, 0)
      && r[ri].coins == players[ri].coins + Max(shares.1, 0)
      && forall k :: 0 <= k < |players| && k != i && k != li && k != ri ==> r[k] == players[k]
  {
  }

  // ================================================================ the manager's loops

  // One step of each loop: the fold over the rest from position k is the fold over the
  // rest from k + 1, started from the state after the element at k.

  lemma AffordOptionsStep(opts: seq<Resource>, j: nat, m: Counts, mb: int, pc: int)
    requires j < |opts|
    ensures var o := opts[j];
      AffordOptions(opts[j..], m, mb, pc)
      == if o in m && m[o] > 0 then
           var used := Min(m[o], pc);
           if pc - used == 0 || mb - used <= 0 then (m[o := m[o] - used], mb - used)
           else AffordOptions(opts[j + 1..], m[o := m[o] - used], mb - used, pc - used)
         else AffordOptions(opts[j + 1..], m, mb, pc)
  {
    assert opts[j..][0] == opts[j] && opts[j..][1..] == opts[j + 1..];
  }

  lemma AffordPairsStep(ps: seq<Resource>, k: nat, own: Counts, m: Counts, mb: int)
    requires k < |ps|
    ensures var p := ps[k];
      AffordPairs(ps[k..], own, m, mb)
      == if IsMutablePair(p) && Get(own, p) > 0 && mb > 0 then
           var (m', mb') := AffordOptions(OptionList(p), m, mb, Get(own, p));
           AffordPairs(ps[k + 1..], own, m', mb')
         else AffordPairs(ps[k + 1..], own, m, mb)
  {
    assert ps[k..][0] == ps[k] && ps[k..][1..] == ps[k + 1..];
  }

  lemma PayWildcardsStep(rs: seq<Resource>, k: nat, m: Counts, rem: int, base: bool)
    requires k < |rs|
    ensures var r := rs[k];
      PayWildcards(rs[k..], m, rem, base)
      == if r in m && InClass(r, base) && m[r] > 0 && rem > 0 then
           var used := Min(m[r], rem);
           PayWildcards(rs[k + 1..], m[r := m[r] - used], rem - used, base)
         else PayWildcards(rs[k + 1..], m, rem, base)
  {
    assert rs[k..][0] == rs[k] && rs[k..][1..] == rs[k + 1..];
  }

  lemma PayOptionsStep(opts: seq<Resource>, j: nat, m: Counts, pc: int)
    requires j < |opts|
    ensures var o := opts[j];
      PayOptions(opts[j..], m, pc)
      == if o in m && m[o] > 0 then
           var used := Min(m[o], pc);
           if pc - used == 0 then m[o := m[o] - used] else PayOptions(opts[j + 1..], m[o := m[o] - used], pc - used)
         else PayOptions(opts[j + 1..], m, pc)
  {
    assert opts[j..][0] == opts[j] && opts[j..][1..] == opts[j + 1..];
  }

  lemma PayPairsStep(ps: seq<Resource>, k: nat, own: Counts, m: Counts)
    requires k < |ps|
    ensures var p := ps[k];
      PayPairs(ps[k..], own, m)
      == PayPairs(ps[k + 1..], own, if IsMutablePair(p) && Get(own, p) > 0 then PayOptions(OptionList(p), m, Get(own, p)) else m)
  {
    assert ps[k..][0] == ps[k] && ps[k..][1..] == ps[k + 1..];
  }

  lemma AffordPurchaseStep(rs: seq<Resource>, k: nat, m: Counts, la: Counts, ra: Counts, me: PlayerState)
    requires k < |rs|
    ensures AffordPurchase(rs[k..], m, la, ra, me)
      == match ResourceCost(rs[k], m, la, ra, me)
         case None => None
         case Some(c) => Shift(AffordPurchase(rs[k + 1..], m, la, ra, me), c)
  {
    assert rs[k..][0] == rs[k] && rs[k..][1..] == rs[k + 1..];
  }

  lemma PayPurchaseStep(rs: seq<Resource>, k: nat, m: Counts, la: Counts, ra: Counts, me: PlayerState)
    requires k < |rs|
    ensures var r := rs[k];
      var (tl, tr) := PayPurchase(rs[k + 1..], m, la, ra, me);
      PayPurchase(rs[k..], m, la, ra, me)
      == if r !in m || m[r] <= 0 || !(IsBaseRessource(r) || IsAdvancedRessource(r)) then (tl, tr)
         else
           var (cl, cr) := BuyOne(m[r], Get(la, r), Get(ra, r), LeftPrice(me, r), RightPrice(me, r));
           (cl + tl, cr + tr)
  {
    assert rs[k..][0] == rs[k] && rs[k..][1..] == rs[k + 1..];
  }

  /** The pair loop of canAffordCost. */
  method ApplyPairsForCheck(own: Counts, m0: Counts, mb0: int) returns (m: Counts, mb: int)
    ensures (m, mb) == AffordPairs(AllResources, own, m0, mb0)
  {
    m, mb := m0, mb0;
    for k := 0 to |AllResources|
      invariant AffordPairs(AllResources[k..], own, m, mb) == AffordPairs(AllResources, own, m0, mb0)
    {
      var p := AllResources[k];
      AffordPairsStep(AllResources, k, own, m, mb);
      if IsMutablePair(p) {
        var pairCount := Get(own, p);
        if pairCount > 0 && mb > 0 {
          m, mb := UseOptionsForCheck(OptionList(p), m, mb, pairCount);
        }
      }
    }
  }

  /** The option loop of canAffordCost for one pair. */
  method UseOptionsForCheck(options: seq<Resource>, m0: Counts, mb0: int, pc0: int) returns (m: Counts, mb: int)
    ensures (m, mb) == AffordOptions(options, m0, mb0, pc0)
  {
    m, mb := m0, mb0;
    var pairCount := pc0;
    var j := 0;
    while j < |options|
      invariant 0 <= j <= |options|
      invariant AffordOptions(options[j..], m, mb, pairCount) == AffordOptions(options, m0, mb0, pc0)
    {
      var o := options[j];
      AffordOptionsStep(options, j, m, mb, pairCount);
      if o in m && m[o] > 0 {
        var used := Min(m[o], pairCount);
        m := m[o := m[o] - used];
        mb := mb - used;
        pairCount := pairCount - used;
        if pairCount == 0 || mb <= 0 {
          return;
        }
      }
      j := j + 1;
    }
  }

  /** The neighbour-availability loop shared by canAffordCost and payCost. */
  method NeighbourAvailability(L: Counts, R: Counts) returns (la: Counts, ra: Counts)
    ensures la == Available(L, R) && ra == Available(R, L)
  {
    la, ra := L, R;
    for k := 0 to |AllResources|
      invariant AvailableFold(AllResources[k..], L, R, la) == Available(L, R)
      invariant AvailableFold(AllResources[k..], R, L, ra) == Available(R, L)
    {
      var p := AllResources[k];
      AvailableFoldStep(AllResources, k, L, R, la);
      AvailableFoldStep(AllResources, k, R, L, ra);
      if IsMutablePair(p) {
        var leftPairs, rightPairs := Get(L, p), Get(R, p);
        if leftPairs > 0 || rightPairs > 0 {
          la, ra := MergeOptions(OptionList(p), la, ra, leftPairs, rightPairs);
        }
      }
    }
  }

  /** The option loop of the neighbour-availability loop: both neighbours' pair counts
      are added to each option of the pair. */
  method MergeOptions(options: seq<Resource>, la0: Counts, ra0: Counts, leftPairs: int, rightPairs: int)
    returns (la: Counts, ra: Counts)
    ensures la == MergeAll(options, la0, leftPairs) && ra == MergeAll(options, ra0, rightPairs)
  {
    la, ra := la0, ra0;
    for j := 0 to |options|
      invariant MergeAll(options[j..], la, leftPairs) == MergeAll(options, la0, leftPairs)
      invariant MergeAll(options[j..], ra, rightPairs) == MergeAll(options, ra0, rightPairs)
    {
      MergeAllStep(options, j, la, leftPairs);
      MergeAllStep(options, j, ra, rightPairs);
      la := Merge(la, options[j], leftPairs);
      ra := Merge(ra, options[j], rightPairs);
    }
  }

  function Shift(o: Option<int>, x: int): Option<int>
  {
    match o case None => None case Some(c) => Some(c + x)
  }

  /** Buying one resource from the neighbours: the cheaper side first, the rest from the other side. */
  method Buy(amountNeeded: int, availableFromLeft: int, availableFromRight: int, priceFromLeft: int, priceFromRight: int)
    returns (costFromLeft: int, costFromRight: int)
    ensures (costFromLeft, costFromRight) == BuyOne(amountNeeded, availableFromLeft, availableFromRight, priceFromLeft, priceFromRight)
  {
    var remaining := amountNeeded;
    costFromLeft, costFromRight := 0, 0;
    if priceFromLeft <= priceFromRight {
      var buyFromLeft := Min(remaining, availableFromLeft);
      costFromLeft := buyFromLeft * priceFromLeft;
      remaining := remaining - buyFromLeft;
      if remaining > 0 {
        costFromRight := remaining * priceFromRight;
      }
    } else {
      var buyFromRight := Min(remaining, availableFromRight);
      costFromRight := buyFromRight * priceFromRight;
      remaining := remaining - buyFromRight;
      if remaining > 0 {
        costFromLeft := remaining * priceFromLeft;
      }
    }
  }

  /** The buying loop of canAffordCost, over the resources rs in order (the manager
      passes the concrete resources). */
  method PurchaseCost(rs: seq<Resource>, m: Counts, la: Counts, ra: Counts, me: PlayerState)
    returns (canBuyAll: bool, minimumCost: int)
    ensures canBuyAll <==> AffordPurchase(rs, m, la, ra, me).Some?
    ensures canBuyAll ==> minimumCost == AffordPurchase(rs, m, la, ra, me).value
  {
    minimumCost, canBuyAll := 0, true;
    ghost var target := AffordPurchase(rs, m, la, ra, me);
    var k := 0;
    while k < |rs|
      invariant 0 <= k <= |rs|
      invariant Shift(AffordPurchase(rs[k..], m, la, ra, me), minimumCost) == target
    {
      AffordPurchaseStep(rs, k, m, la, ra, me);
      var short, cost := BuyResource(rs[k], m, la, ra, me);
      if short {
        canBuyAll := false;
        break;
      }
      minimumCost := minimumCost + cost;
      k := k + 1;
    }
  }

  /** What buying one resource costs in the buying loop of canAffordCost: None when the
      neighbours together have too little of it, nothing when it is not needed. */
  function ResourceCost(r: Resource, m: Counts, la: Counts, ra: Counts, me: PlayerState): Option<int>
  {
    if r !in m || m[r] <= 0 then Some(0)
    else if Get(la, r) + Get(ra, r) < m[r] then None
    else if !(IsBaseRessource(r) || IsAdvancedRessource(r)) then Some(0)
    else
      var (cl, cr) := BuyOne(m[r], Get(la, r), Get(ra, r), LeftPrice(me, r), RightPrice(me, r));
      Some(cl + cr)
  }

  /** The body of the buying loop of canAffordCost for one resource. */
  method BuyResource(r: Resource, m: Counts, la: Counts, ra: Counts, me: PlayerState) returns (short: bool, cost: int)
    ensures short <==> ResourceCost(r, m, la, ra, me).None?
    ensures !short ==> cost == ResourceCost(r, m, la, ra, me).value
  {
    short, cost := false, 0;
    if r in m && m[r] > 0 {
      if Get(la, r) + Get(ra, r) < m[r] {
        return true, 0;
      }
      if IsBaseRessource(r) || IsAdvancedRessource(r) {
        var cl, cr := Buy(m[r], Get(la, r), Get(ra, r), LeftPrice(me, r), RightPrice(me, r));
        cost := cl + cr;
      }
    }
  }

  /** canAffordCost, step by step as the manager computes it. */
  method CanAffordCost(players: seq<PlayerState>, i: int, cost: Counts) returns (ok: bool)
    requires HasNeighbours(players, i)
    ensures ok == CanAffordSpec(players, i, cost)
  {
    var me := players[i];
    var own := me.resources;
    var missing := Missing(cost, own);
    var missingBase := MissingCount(missing, true) - Get(own, MUTABLE_BASE);
    var missingAdvanced := MissingCount(missing, false) - Get(own, MUTABLE_ADVANCED);
    missing, missingBase := ApplyPairsForCheck(own, missing, missingBase);
    if missingBase <= 0 && missingAdvanced <= 0 {
      return true;
    }
    var la, ra := NeighbourAvailability(LeftOf(players, i).resources, RightOf(players, i).resources);
    var canBuyAll, minimumCost := PurchaseCost(ConcreteResources, missing, la, ra, me);
    ok := canBuyAll && minimumCost <= me.coins;
  }

  /** canPlayCard. */
  method CanPlayCard(players: seq<PlayerState>, i: int, card: Card) returns (ok: bool)
    requires HasNeighbours(players, i) && card.coinCost.Some?
    ensures ok == CanPlaySpec(players, i, card)
    ensures card.coinCost.value != 0 ==> (ok <==> card.coinCost.value <= players[i].coins)
  {
    if card.coinCost.value == 0 {
      ok := CanAffordCost(players, i, card.cost);
    } else {
      ok := card.coinCost.value <= players[i].coins;
    }
  }

  /** The wildcard loop of payCost for one class. */
  method UseWildcards(m0: Counts, wildcards: int, base: bool) returns (m: Counts)
    ensures m == PayWildcards(ConcreteResources, m0, wildcards, base)
  {
    m := m0;
    var remaining := wildcards;
    for k := 0 to |ConcreteResources|
      invariant PayWildcards(ConcreteResources[k..], m, remaining, base) == PayWildcards(ConcreteResources, m0, wildcards, base)
    {
      var r := ConcreteResources[k];
      PayWildcardsStep(ConcreteResources, k, m, remaining, base);
      if r in m && InClass(r, base) && m[r] > 0 && remaining > 0 {
        var used := Min(m[r], remaining);
        m := m[r := m[r] - used];
        remaining := remaining - used;
      }
    }
  }

  /** The pair loop of payCost. */
  method UsePairs(own: Counts, m0: Counts) returns (m: Counts)
    ensures m == PayPairs(AllResources, own, m0)
  {
    m := m0;
    for k := 0 to |AllResources|
      invariant PayPairs(AllResources[k..], own, m) == PayPairs(AllResources, own, m0)
    {
      var p := AllResources[k];
      PayPairsStep(AllResources, k, own, m);
      if IsMutablePair(p) {
        var pairCount := Get(own, p);
        if pairCount > 0 {
          m := UseOptions(OptionList(p), m, pairCount);
        }
      }
    }
  }

  /** The option loop of payCost for one pair. */
  method UseOptions(options: seq<Resource>, m0: Counts, pc0: int) returns (m: Counts)
    ensures m == PayOptions(options, m0, pc0)
  {
    m := m0;
    var pairCount := pc0;
    var j := 0;
    while j < |options|
      invariant 0 <= j <= |options|
      invariant PayOptions(options[j..], m, pairCount) == PayOptions(options, m0, pc0)
    {
      var o := options[j];
      PayOptionsStep(options, j, m, pairCount);
      if o in m && m[o] > 0 {
        var used := Min(m[o], pairCount);
        m := m[o := m[o] - used];
        pairCount := pairCount - used;
        if pairCount == 0 {
          return;
        }
      }
      j := j + 1;
    }
  }

  /** The buying loop of payCost. */
  method PurchaseShares(m: Counts, la: Counts, ra: Counts, me: PlayerState) returns (coinsToLeft: int, coinsToRight: int, totalCost: int)
    ensures (coinsToLeft, coinsToRight) == PayPurchase(ConcreteResources, m, la, ra, me)
    ensures totalCost == coinsToLeft + coinsToRight
  {
    coinsToLeft, coinsToRight, totalCost := 0, 0, 0;
    for k := 0 to |ConcreteResources|
      invariant totalCost == coinsToLeft + coinsToRight
      invariant var rest := PayPurchase(ConcreteResources[k..], m, la, ra, me);
        (coinsToLeft + rest.0, coinsToRight + rest.1) == PayPurchase(ConcreteResources, m, la, ra, me)
    {
      var r := ConcreteResources[k];
      PayPurchaseStep(ConcreteResources, k, m, la, ra, me);
      if r in m && m[r] > 0 && (IsBaseRessource(r) || IsAdvancedRessource(r)) {
        var costFromLeft, costFromRight := Buy(m[r], Get(la, r), Get(ra, r), LeftPrice(me, r), RightPrice(me, r));
        coinsToLeft, coinsToRight := coinsToLeft + costFromLeft, coinsToRight + costFromRight;
        totalCost := totalCost + costFromLeft + costFromRight;
      }
    }
  }

  /** The coins payCost moves: the shares for each neighbour and their total. */
  method PaymentPlan(players: seq<PlayerState>, i: int, cost: Counts) returns (coinsToLeft: int, coinsToRight: int, totalCost: int)
    requires HasNeighbours(players, i)
    ensures (coinsToLeft, coinsToRight) == PaymentSpec(players, i, cost)
    ensures totalCost == coinsToLeft + coinsToRight
  {
    var own := players[i].resources;
    var missing := Missing(cost, own);
    missing := UseWildcards(missing, Get(own, MUTABLE_BASE), true);
    missing := UseWildcards(missing, Get(own, MUTABLE_ADVANCED), false);
    missing := UsePairs(own, missing);
    var la, ra := NeighbourAvailability(LeftOf(players, i).resources, RightOf(players, i).resources);
    coinsToLeft, coinsToRight, totalCost := PurchaseShares(missing, la, ra, players[i]);
  }

  // ================================================================ card effects

  /** The number of cases of the card-name switch of mapCardToEffectId. */
  const CardEffectCount := 65

  /** Case i of the card-name switch of mapCardToEffectId, in source order: the card
      name and its effect id. */
  function CardEffectCase(i: nat): (c: (string, string))
  {
    match i
    case 0 => ("Lumber Yard", "LUMBER_YARD_WOOD_1")
    case 1 => ("Clay Pool", "CLAY_POOL_BRICK_1")
    case 2 => ("Stone Pit", "STONE_PIT_STONE_1")
    case 3 => ("Ore Vein", "ORE_VEIN_ORE_1")
    case 4 => ("Timber Yard", "TIMBER_YARD_STONE_WOOD_1")
    case 5 => ("Clay Pit", "CLAY_PIT_ORE_BRICK_1")
    case 6 => ("Sawmill", "SAWMILL_WOOD_2")
    case 7 => ("Foundry", "FOUNDRY_ORE_2")
    case 8 => ("Quarry", "QUARRY_STONE_2")
    case 9 => ("Brickyard", "BRICKYARD_BRICK_2")
    case 10 => ("Glassworks", "GLASSWORKS_GLASS_1")
    case 11 => ("Press", "PRESS_PAPER_1")
    case 12 => ("Loom", "LOOM_TEXTILE_1")
    case 13 => ("Altar", "ALTAR_VP_2")
    case 14 => ("Theater", "THEATER_VP_2")
    case 15 => ("Bath", "BATH_VP_3")
    case 16 => ("Courthouse", "COURTHOUSE_VP_4")
    case 17 => ("Temple", "TEMPLE_VP_3")
    case 18 => ("Statue", "STATUE_VP_4")
    case 19 => ("Aqueduct", "AQUEDUCT_VP_5")
    case 20 => ("Gardens", "GARDENS_VP_5")
    case 21 => ("Senate", "SENATE_VP_6")
    case 22 => ("Town Hall", "TOWN_HALL_VP_6")
    case 23 => ("Pantheon", "PANTHEON_VP_7")
    case 24 => ("Palace", "PALACE_VP_8")
    case 25 => ("West Trading Post", "WEST_TRADING_POST")
    case 26 => ("East Trading Post", "EAST_TRADING_POST")
    case 27 => ("Marketplace", "MARKETPLACE")
    case 28 => ("Caravansery", "CARAVANSERY_MUTABLE_BASE_1")
    case 29 => ("Forum", "FORUM_MUTABLE_ADVANCED_1")
    case 30 => ("Vineyard", "VINEYARD_COINS_BROWN")
    case 31 => ("Lighthouse", "LIGHTHOUSE_COINS_YELLOW")
    case 32 => ("Haven", "HAVEN_COINS_BROWN")
    case 33 => ("Chamber of Commerce", "CHAMBER_OF_COMMERCE_COINS_YELLOW")
    case 34 => ("Guard Tower", "GUARD_TOWER_MILITARY_1")
    case 35 => ("Barracks", "BARRACKS_MILITARY_1")
    case 36 => ("Stockade", "STOCKADE_MILITARY_1")
    case 37 => ("Stables", "STABLES_MILITARY_2")
    case 38 => ("Archery Range", "ARCHERY_RANGE_MILITARY_2")
    case 39 => ("Walls", "WALLS_MILITARY_2")
    case 40 => ("Arsenal", "ARSENAL_MILITARY_3")
    case 41 => ("Siege Workshop", "SIEGE_WORKSHOP_MILITARY_3")
    case 42 => ("Fortifications", "FORTIFICATIONS_MILITARY_3")
    case 43 => ("Scriptorium", "SCRIPTORIUM_TABLET_1")
    case 44 => ("Apothecary", "APOTHECARY_COMPASS_1")
    case 45 => ("Workshop", "WORKSHOP_GEAR_1")
    case 46 => ("Dispensary", "DISPENSARY_COMPASS_1")
    case 47 => ("Laboratory", "LABORATORY_GEAR_1")
    case 48 => ("Library", "LIBRARY_TABLET_1")
    case 49 => ("School", "SCHOOL_TABLET_1")
    case 50 => ("University", "UNIVERSITY_TABLET_1")
    case 51 => ("Study", "STUDY_GEAR_1")
    case 52 => ("Lodge", "LODGE_COMPASS_1")
    case 53 => ("Academy", "ACADEMY_COMPASS_1")
    case 54 => ("Observatory", "OBSERVATORY_GEAR_1")
    case 55 => ("Workers Guild", "WORKERS_GUILD_VP_BROWN")
    case 56 => ("Craftsmens Guild", "CRAFTSMENS_GUILD_VP_GREY")
    case 57 => ("Magistrates Guild", "MAGISTRATES_GUILD_VP_BLUE")
    case 58 => ("Traders Guild", "TRADERS_GUILD_VP_YELLOW")
    case 59 => ("Spies Guild", "SPIES_GUILD_VP_RED")
    case 60 => ("Philosophers Guild", "PHILOSOPHERS_GUILD_VP_GREEN")
    case 61 => ("Shipowners Guild", "SHIPOWNERS_GUILD_VP_BROWN_GREY_VIOLET")
    case 62 => ("Scientists Guild", "SCIENTISTS_GUILD_MUTABLE")
    case 63 => ("Decorators Guild", "DECORATORS_GUILD_VP_WONDER")
    case _ => ("Builders Guild", "BUILDERS_GUILD_VP_WONDER")
  }

  /** mapCardToEffectId: the effect id of a card name, None for the default case. */
  function MapCardToEffectId(cardName: string): (r: Option<string>)
  {
    CaseFrom(CardEffectCase, CardEffectCount, cardName, 0)
  }

  /** mapCardToEffectId gives the effect id of the first case labelled with the card
      name, and nothing for a name no case has. */
  lemma MapCardToEffectIdCases(cardName: string)
    ensures MapCardToEffectId(cardName).None? <==> forall j :: 0 <= j < CardEffectCount ==> CardEffectCase(j).0 != cardName
    ensures MapCardToEffectId(cardName).Some? ==>
      exists j :: 0 <= j < CardEffectCount && CardEffectCase(j) == (cardName, MapCardToEffectId(cardName).value)
        && forall l :: 0 <= l < j ==> CardEffectCase(l).0 != cardName
  {
    CaseFromFirstMatch(CardEffectCase, CardEffectCount, cardName, 0);
  }

  /** applyCardEffect: the card's effect, when it has one in the table and in the
      effect store, is queued on the player; otherwise nothing changes. */
  function WithCardEffect(p: PlayerState, card: Card, effects: map<string, Effect>): (r: PlayerState)
    ensures r.(pendingEffects := p.pendingEffects) == p
    ensures |r.pendingEffects| <= |p.pendingEffects| + 1
    ensures r.pendingEffects != p.pendingEffects <==>
      MapCardToEffectId(card.name).Some? && MapCardToEffectId(card.name).value in effects
    ensures r.pendingEffects != p.pendingEffects ==>
      r.pendingEffects == p.pendingEffects + [effects[MapCardToEffectId(card.name).value]]
  {
    match MapCardToEffectId(card.name)
    case None => p
    case Some(effectId) =>
      if effectId !in effects then p
      else p.(pendingEffects := p.pendingEffects + [effects[effectId]])
  }

  // ================================================================ playing and discarding

  /** The payment step of playCard: the coin cost when it is positive, the resource
      cost otherwise. */
  function PaidForCard(players: seq<PlayerState>, i: int, card: Card): (r: seq<PlayerState>)
    requires HasNeighbours(players, i) && card.coinCost.Some?
    ensures |r| == |players|
  {
    if card.coinCost.value > 0 then AddCoins(players, i, -card.coinCost.value)
    else PayCostSpec(players, i, card.cost)
  }

  /** The card step of playCard on the player: the card leaves the hand for the played
      cards, and its effect is queued. */
  function Played(me: PlayerState, card: Card, effects: map<string, Effect>): (r: PlayerState)
  {
    WithCardEffect(me.(hand := RemoveFirst(me.hand, card), playedCards := me.playedCards + [card]), card, effects)
  }

  /** playCard once canPlayCard has agreed: pay, then move the card from the hand to the
      played cards and queue its effect. */
  function PlayCardSpec(players: seq<PlayerState>, i: int, card: Card, effects: map<string, Effect>): (r: seq<PlayerState>)
    requires HasNeighbours(players, i) && card.coinCost.Some?
    ensures |r| == |players|
  {
    var paid := PaidForCard(players, i, card);
    paid[i := Played(paid[i], card, effects)]
  }

  /** Playing a card from the hand moves exactly that card to the played cards: the
      hand loses one copy, the played cards gain it at the end. */
  lemma PlayCardMovesCard(players: seq<PlayerState>, i: int, card: Card, effects: map<string, Effect>)
    requires HasNeighbours(players, i) && card.coinCost.Some?
    requires card in players[i].hand
    ensures var me := PlayCardSpec(players, i, card, effects)[i];
      me.playedCards == players[i].playedCards + [card]
      && multiset(me.hand) == multiset(players[i].hand) - multiset{card}
      && |me.hand| == |players[i].hand| - 1
  {
    var paid := PaidForCard(players, i, card);
    if card.coinCost.value <= 0 {
      PayCostOnlyCoins(players, i, card.cost);
    }
    assert paid[i] == players[i].(coins := paid[i].coins);
    MovesCard(paid[i], card, effects);
  }

  /** The hand and played-cards update of playCard, on one player. */
  lemma MovesCard(me: PlayerState, card: Card, effects: map<string, Effect>)
    requires card in me.hand
    ensures var after := Played(me, card, effects);
      after.playedCards == me.playedCards + [card]
      && multiset(after.hand) == multiset(me.hand) - multiset{card}
      && |after.hand| == |me.hand| - 1
  {
    RemoveFirstSpec(me.hand, card);
  }

  /** A card bought with coins only takes the coin cost from the player; the
      neighbours are untouched. */
  lemma PlayCardWithCoins(players: seq<PlayerState>, i: int, card: Card, effects: map<string, Effect>)
    requires HasNeighbours(players, i) && card.coinCost.Some? && card.coinCost.value > 0
    ensures var r := PlayCardSpec(players, i, card, effects);
      r[i].coins == players[i].coins - card.coinCost.value
      && TotalCoins(r) == TotalCoins(players) - card.coinCost.value
      && forall k :: 0 <= k < |players| && k != i ==> r[k] == players[k]
  {
    var paid := AddCoins(players, i, -card.coinCost.value);
    AddCoinsTotal(players, i, -card.coinCost.value);
    TotalCoinsUpdate(paid, i, Played(paid[i], card, effects));
  }

  /** Moves coins to the neighbours as payCost does. */
  method PayCost(g: Game, i: int, cost: Counts)
    requires HasNeighbours(g.players, i)
    modifies g`players
    ensures g.players == PayCostSpec(old(g.players), i, cost)
  {
    var coinsToLeft, coinsToRight, totalCost := PaymentPlan(g.players, i, cost);
    var li, ri := g.players[i].leftNeighbor.value, g.players[i].rightNeighbor.value;
    g.players := g.players[i := g.players[i].(coins := g.players[i].coins - totalCost)];
    if coinsToLeft > 0 {
      g.players := g.players[li := g.players[li].(coins := g.players[li].coins + coinsToLeft)];
    }
    if coinsToRight > 0 {
      g.players := g.players[ri := g.players[ri].(coins := g.players[ri].coins + coinsToRight)];
    }
  }

  /** The payment step of playCard: the coin cost when it is positive, the resource
      cost otherwise. */
  method PayForCard(g: Game, i: int, card: Card)
    requires HasNeighbours(g.players, i) && card.coinCost.Some?
    modifies g`players
    ensures g.players == PaidForCard(old(g.players), i, card)
  {
    if card.coinCost.value > 0 {
      g.players := g.players[i := g.players[i].(coins := g.players[i].coins - card.coinCost.value)];
    } else {
      PayCost(g, i, card.cost);
    }
  }

  /** playCard: false and no change when the card cannot be played. */
  method PlayCard(g: Game, i: int, card: Card, effects: map<string, Effect>) returns (played: bool)
    requires HasNeighbours(g.players, i) && card.coinCost.Some?
    modifies g`players
    ensures played == CanPlaySpec(old(g.players), i, card)
    ensures played ==> g.players == PlayCardSpec(old(g.players), i, card, effects)
    ensures !played ==> g.players == old(g.players)
  {
    played := CanPlayCard(g.players, i, card);
    if played {
      PayForCard(g, i, card);
      MoveToPlayed(g, i, card, effects);
    }
  }

  /** The card step of playCard: the card leaves the hand for the played cards, and its
      effect is queued. */
  method MoveToPlayed(g: Game, i: nat, card: Card, effects: map<string, Effect>)
    requires i < |g.players|
    modifies g`players
    ensures g.players == old(g.players)[i := Played(old(g.players)[i], card, effects)]
  {
    var me := g.players[i];
    me := me.(hand := RemoveFirst(me.hand, card));
    me := me.(playedCards := me.playedCards + [card]);
    me := WithCardEffect(me, card, effects);
    g.players := g.players[i := me];
  }

  /** discardCard: the card leaves the hand for the shared discard pile and the player
      takes 3 coins. */
  function DiscardSpec(players: seq<PlayerState>, i: nat, card: Card): (r: seq<PlayerState>)
    requires i < |players|
    ensures |r| == |players|
  {
    players[i := players[i].(hand := RemoveFirst(players[i].hand, card), coins := players[i].coins + 3)]
  }

  /** Discarding adds exactly 3 coins to the table, and the discarded card changes
      place without being lost: hand plus discard pile keep their cards. */
  lemma DiscardKeepsCards(players: seq<PlayerState>, i: nat, card: Card, discard: seq<Card>)
    requires i < |players| && card in players[i].hand
    ensures var r := DiscardSpec(players, i, card);
      TotalCoins(r) == TotalCoins(players) + 3
      && multiset(r[i].hand) + multiset(discard + [card]) == multiset(players[i].hand) + multiset(discard)
      && forall k :: 0 <= k < |players| && k != i ==> r[k] == players[k]
  {
    TotalCoinsUpdate(players, i, DiscardSpec(players, i, card)[i]);
    RemoveFirstSpec(players[i].hand, card);
  }

  method DiscardCard(g: Game, i: int, card: Card)
    requires 0 <= i < |g.players|
    modifies g`players, g`discard
    ensures g.players == DiscardSpec(old(g.players), i, card)
    ensures g.discard == old(g.discard) + [card]
  {
    var me := g.players[i];
    me := me.(hand := RemoveFirst(me.hand, card));
    g.discard := g.discard + [card];
    me := me.(coins := me.coins + 3);
    g.players := g.players[i := me];
  }
}
