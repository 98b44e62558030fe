/** The resource taxonomy of the game: seven concrete resources, two wildcards and
    six two-way pairs, with their classification predicates. */
module Ressources {
  import opened Common

  datatype Resource =
    | STONE | WOOD | ORE | BRICK
    | GLASS | PAPER | TEXTILE
    | MUTABLE_BASE | MUTABLE_ADVANCED
    | STONE_WOOD | STONE_ORE | STONE_BRICK | WOOD_ORE | WOOD_BRICK | ORE_BRICK

  /** Ressources.values(): the declaration order. */
  const AllResources: seq<Resource> := [
    STONE, WOOD, ORE, BRICK, GLASS, PAPER, TEXTILE, MUTABLE_BASE, MUTABLE_ADVANCED,
    STONE_WOOD, STONE_ORE, STONE_BRICK, WOOD_ORE, WOOD_BRICK, ORE_BRICK]

  /** The concrete resources, in declaration order. */
  const ConcreteResources: seq<Resource> := [STONE, WOOD, ORE, BRICK, GLASS, PAPER, TEXTILE]

  /** The six pairs, in declaration order. */
  const PairResources: seq<Resource> := [STONE_WOOD, STONE_ORE, STONE_BRICK, WOOD_ORE, WOOD_BRICK, ORE_BRICK]

  /** A concrete resource: anything but a wildcard or a pair. */
  predicate IsRessource(r: Resource)
  {
    !(r.MUTABLE_BASE? || r.MUTABLE_ADVANCED? || IsMutablePair(r))
  }

  predicate IsBaseRessource(r: Resource)
  {
    r.STONE? || r.WOOD? || r.ORE? || r.BRICK?
  }

  predicate IsAdvancedRessource(r: Resource)
  {
    r.GLASS? || r.PAPER? || r.TEXTILE?
  }

  predicate IsMutablePair(r: Resource)
  {
    r.STONE_WOOD? || r.STONE_ORE? || r.STONE_BRICK? || r.WOOD_ORE? || r.WOOD_BRICK? || r.ORE_BRICK?
  }

  /** The two base resources a pair can stand for; None (null) for a non-pair. */
  function PairOptions(r: Resource): Option<(Resource, Resource)>
  {
    match r
    case STONE_WOOD => Some((STONE, WOOD))
    case STONE_ORE => Some((STONE, ORE))
    case STONE_BRICK => Some((STONE, BRICK))
    case WOOD_ORE => Some((WOOD, ORE))
    case WOOD_BRICK => Some((WOOD, BRICK))
    case ORE_BRICK => Some((ORE, BRICK))
    case _ => None
  }

  /** Position of a constant in the declaration. */
  function Ordinal(r: Resource): (k: nat)
    ensures k < |AllResources| && AllResources[k] == r
  {
    match r
    case STONE => 0 case WOOD => 1 case ORE => 2 case BRICK => 3
    case GLASS => 4 case PAPER => 5 case TEXTILE => 6
    case MUTABLE_BASE => 7 case MUTABLE_ADVANCED => 8
    case STONE_WOOD => 9 case STONE_ORE => 10 case STONE_BRICK => 11
    case WOOD_ORE => 12 case WOOD_BRICK => 13 case ORE_BRICK => 14
  }

  /** Enum.name(). */
  function Name(r: Resource): string
  {
    match r
    case STONE => "STONE" case WOOD => "WOOD" case ORE => "ORE" case BRICK => "BRICK"
    case GLASS => "GLASS" case PAPER => "PAPER" case TEXTILE => "TEXTILE"
    case MUTABLE_BASE => "MUTABLE_BASE" case MUTABLE_ADVANCED => "MUTABLE_ADVANCED"
    case STONE_WOOD => "STONE_WOOD" case STONE_ORE => "STONE_ORE" case STONE_BRICK => "STONE_BRICK"
    case WOOD_ORE => "WOOD_ORE" case WOOD_BRICK => "WOOD_BRICK" case ORE_BRICK => "ORE_BRICK"
  }

  /** Enum.valueOf: the constant with exactly this name (case-sensitive), None when
      valueOf would throw IllegalArgumentException. */
  function ValueOf(s: string): (r: Option<Resource>)
    ensures r.Some? ==> Name(r.value) == s
  {
    FindByName(AllResources, s)
  }

  function FindByName(cands: seq<Resource>, s: string): (r: Option<Resource>)
    ensures r.Some? ==> r.value in cands && Name(r.value) == s
    ensures r.None? ==> forall c :: c in cands ==> Name(c) != s
  {
    if cands == [] then None
    else if Name(cands[0]) == s then Some(cands[0])
    else FindByName(cands[1..], s)
  }

  /** valueOf(name()) is the identity. */
  lemma ValueOfName(r: Resource)
    ensures ValueOf(Name(r)) == Some(r)
  {
    assert r in AllResources by { assert AllResources[Ordinal(r)] == r; }
    var v := ValueOf(Name(r));
    assert v.Some?;
    NameInjective(v.value, r);
  }

  /** Distinct constants have distinct names. */
  lemma NameInjective(a: Resource, b: Resource)
    requires Name(a) == Name(b)
    ensures a == b
  {
    assert Name(a)[..] == Name(b);
    match a
    case STONE => assert Name(b)[0] == 'S' && |Name(b)| == 5;
    case STONE_WOOD => assert |Name(b)| == 10 && Name(b)[6] == 'W';
    case STONE_ORE => assert |Name(b)| == 9 && Name(b)[0] == 'S';
    case STONE_BRICK => assert |Name(b)| == 11 && Name(b)[6] == 'B';
    case WOOD_BRICK => assert |Name(b)| == 10 && Name(b)[0] == 'W';
    case _ =>
  }

  // ---------------------------------------------------------------- classification facts

  /** The concrete resources are exactly the seven named ones. */
  lemma ConcreteExactly(r: Resource)
    ensures IsRessource(r) <==> r in ConcreteResources
  {
  }

  /** Base and advanced split the concrete resources into two disjoint classes. */
  lemma BaseAdvancedPartition(r: Resource)
    ensures !(IsBaseRessource(r) && IsAdvancedRessource(r))
    ensures IsRessource(r) <==> IsBaseRessource(r) || IsAdvancedRessource(r)
  {
  }

  /** The pairs are exactly the six two-way constants. */
  lemma PairsExactly(r: Resource)
    ensures IsMutablePair(r) <==> r in PairResources
    ensures IsMutablePair(r) ==> !IsRessource(r)
  {
  }

  /** A pair stands for two distinct base resources, listed in declaration order;
      every other constant has no options. */
  lemma PairOptionsShape(r: Resource)
    ensures PairOptions(r).Some? <==> IsMutablePair(r)
    ensures PairOptions(r).Some? ==>
      var (a, b) := PairOptions(r).value;
      IsBaseRessource(a) && IsBaseRessource(b) && Ordinal(a) < Ordinal(b)
  {
  }

  /** The first nine constants, in order, are the index table 0..8 of effect parameters. */
  lemma IndexTable()
    ensures AllResources[..9] == ConcreteResources + [MUTABLE_BASE, MUTABLE_ADVANCED]
    ensures forall k :: 0 <= k < 9 ==> Ordinal(AllResources[k]) == k
  {
  }

  // ---------------------------------------------------------------- resource counts

  /** A resource-to-quantity map (Map<Ressources, Integer>). */
  type Counts = map<Resource, int>

  /** Map.getOrDefault(r, 0). */
  function Get(m: Counts, r: Resource): int
  {
    if r in m then m[r] else 0
  }

  /** Map.merge(r, v, Integer::sum). */
  function Merge(m: Counts, r: Resource, v: int): (m': Counts)
    ensures Get(m', r) == Get(m, r) + v
    ensures forall q :: q != r ==> Get(m', q) == Get(m, q)
    ensures m'.Keys == m.Keys + {r}
  {
    m[r := Get(m, r) + v]
  }
}
