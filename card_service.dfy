/** The card catalogue grouped for display: by age, ages in ascending order, and
    within an age by card type, each group in catalogue order. The inner grouping is a
    hash map, so its key order is not modelled: it is a Dafny map. */
module CardService {
  import opened Ages
  import opened Entities

  /** One group: the catalogue's cards of that age and type, in catalogue order, each
      as often as in the catalogue. */
  function Group(cards: seq<Card>, a: Age, t: CardType): (g: seq<Card>)
  {
    if cards == [] then []
    else (if cards[0].age == a && cards[0].cardType == t then [cards[0]] else []) + Group(cards[1..], a, t)
  }

  /** A group holds only cards of its age and type, and each of them as often as the
      catalogue does. */
  lemma {:induction false} GroupMembers(cards: seq<Card>, a: Age, t: CardType)
    ensures forall c :: c in Group(cards, a, t) ==> c.age == a && c.cardType == t
    ensures forall c: Card :: c.age == a && c.cardType == t ==>
      multiset(Group(cards, a, t))[c] == multiset(cards)[c]
  {
    if cards != [] {
      GroupMembers(cards[1..], a, t);
      assert cards == [cards[0]] + cards[1..];
    }
  }

  /** The card types that occur among the cards of age a. */
  function TypeSet(cards: seq<Card>, a: Age): (ts: set<CardType>)
  {
    set c | c in cards && c.age == a :: c.cardType
  }

  /** The types of the cards of one age, as a map from type to group. */
  function TypesOfAge(cards: seq<Card>, a: Age): (m: map<CardType, seq<Card>>)
  {
    map t | t in TypeSet(cards, a) :: Group(cards, a, t)
  }

  /** Some card of the catalogue has age a. */
  predicate HasAge(cards: seq<Card>, a: Age)
  {
    exists c :: c in cards && c.age == a
  }

  /** The ages that occur, in ordinal order. */
  function PresentAges(cards: seq<Card>): (ages: seq<Age>)
  {
    (if HasAge(cards, AGE_I) then [AGE_I] else [])
    + (if HasAge(cards, AGE_II) then [AGE_II] else [])
    + (if HasAge(cards, AGE_III) then [AGE_III] else [])
  }

  /** getCardsByAgeAndType: the ages that occur, in ascending ordinal order, each with
      its type groups. */
  function CardsByAgeAndType(cards: seq<Card>): (r: seq<(Age, map<CardType, seq<Card>>)>)
  {
    var present := PresentAges(cards);
    seq(|present|, i requires 0 <= i < |present| => (present[i], TypesOfAge(cards, present[i])))
  }

  /** Ages come out in strictly ascending ordinal order, each at most once. */
  lemma AgesAscending(cards: seq<Card>)
    ensures var r := CardsByAgeAndType(cards);
      forall i, j :: 0 <= i < j < |r| ==> Ordinal(r[i].0) < Ordinal(r[j].0)
  {
    var present := PresentAges(cards);
    assert forall i, j :: 0 <= i < j < |present| ==> Ordinal(present[i]) < Ordinal(present[j]);
  }

  /** The ages with an entry are exactly the ages of the catalogue's cards. */
  lemma AgeKeys(cards: seq<Card>)
    ensures var r := CardsByAgeAndType(cards);
      (set i | 0 <= i < |r| :: r[i].0) == (set c | c in cards :: c.age)
  {
    var r := CardsByAgeAndType(cards);
    var present := PresentAges(cards);
    assert |r| == |present| && forall i :: 0 <= i < |r| ==> r[i].0 == present[i];
    PresentAgesExact(cards);
    assert (set i | 0 <= i < |r| :: r[i].0) == set a | a in present;
  }

  /** An age is listed exactly when some card has it. */
  lemma PresentAgesExact(cards: seq<Card>)
    ensures (set a | a in PresentAges(cards)) == (set c | c in cards :: c.age)
  {
    var present := PresentAges(cards);
    forall c | c in cards ensures c.age in present {
      assert HasAge(cards, c.age);
    }
    forall a | a in present ensures a in (set c | c in cards :: c.age) {
      assert HasAge(cards, a);
    }
  }

  /** Within one age, every type group holds only cards of that age and type, and every
      card of that age is in the group of its type as often as in the catalogue. */
  lemma TypeGroupsExact(cards: seq<Card>, a: Age)
    ensures var m := TypesOfAge(cards, a);
      (forall t :: t in m ==> forall c :: c in m[t] ==> c.age == a && c.cardType == t)
      && (forall c :: c in cards && c.age == a ==>
            c.cardType in m && multiset(m[c.cardType])[c] == multiset(cards)[c])
  {
    var m := TypesOfAge(cards, a);
    forall t | t in m ensures forall c: Card :: c in m[t] ==> c.age == a && c.cardType == t {
      GroupMembers(cards, a, t);
    }
    forall c | c in cards && c.age == a
      ensures c.cardType in m && multiset(m[c.cardType])[c] == multiset(cards)[c]
    {
      assert c.cardType in TypeSet(cards, a);
      GroupMembers(cards, a, c.cardType);
    }
  }

  /** Every card is in the group of its own age and type, as often as it is in the
      catalogue, and a group holds only cards of its age and type. */
  lemma EachCardOnceInItsGroup(cards: seq<Card>)
    ensures var r := CardsByAgeAndType(cards);
      forall i :: 0 <= i < |r| ==>
        (forall t :: t in r[i].1 ==>
           (forall c :: c in r[i].1[t] ==> c.age == r[i].0 && c.cardType == t))
        && (forall c :: c in cards && c.age == r[i].0 ==>
              c.cardType in r[i].1 && multiset(r[i].1[c.cardType])[c] == multiset(cards)[c])
  {
    var r := CardsByAgeAndType(cards);
    forall i | 0 <= i < |r|
      ensures (forall t :: t in r[i].1 ==>
                 (forall c :: c in r[i].1[t] ==> c.age == r[i].0 && c.cardType == t))
              && (forall c :: c in cards && c.age == r[i].0 ==>
                    c.cardType in r[i].1 && multiset(r[i].1[c.cardType])[c] == multiset(cards)[c])
    {
      TypeGroupsExact(cards, r[i].0);
    }
  }

  /** No empty group: every age entry has a type, and every type group has a card. */
  lemma NoEmptyGroups(cards: seq<Card>)
    ensures var r := CardsByAgeAndType(cards);
      forall i :: 0 <= i < |r| ==> |r[i].1| > 0 && forall t :: t in r[i].1 ==> r[i].1[t] != []
  {
    var present := PresentAges(cards);
    var r := CardsByAgeAndType(cards);
    forall i | 0 <= i < |r|
      ensures |r[i].1| > 0 && forall t :: t in r[i].1 ==> r[i].1[t] != []
    {
      var a := present[i];
      var m := r[i].1;
      assert HasAge(cards, a);
      var c :| c in cards && c.age == a;
      assert c.cardType in TypeSet(cards, a);
      assert c.cardType in m.Keys;
      assert |m.Keys| > 0;
      forall t | t in m ensures m[t] != [] {
        var d :| d in cards && d.age == a && d.cardType == t;
        GroupMembers(cards, a, t);
        assert multiset(m[t])[d] == multiset(cards)[d];
      }
    }
  }

  /** Grouping is stable: the group of a catalogue made of two parts is the group of the
      first part followed by that of the second, so cards of one group keep their
      catalogue order. */
  lemma {:induction false} GroupStable(s1: seq<Card>, s2: seq<Card>, a: Age, t: CardType)
    ensures Group(s1 + s2, a, t) == Group(s1, a, t) + Group(s2, a, t)
  {
    if s1 == [] {
      assert s1 + s2 == s2;
    } else {
      var head := if s1[0].age == a && s1[0].cardType == t then [s1[0]] else [];
      SplitHead(s1, s2);
      GroupStable(s1[1..], s2, a, t);
      AppendAssociative(head, Group(s1[1..], a, t), Group(s2, a, t));
    }
  }

  /** The first card and the rest of a sequence that starts with a non-empty part. */
  lemma SplitHead(s1: seq<Card>, s2: seq<Card>)
    requires s1 != []
    ensures s1 + s2 != [] && (s1 + s2)[0] == s1[0] && (s1 + s2)[1..] == s1[1..] + s2
  {
  }

  lemma AppendAssociative(x: seq<Card>, y: seq<Card>, z: seq<Card>)
    ensures x + (y + z) == (x + y) + z
  {
  }
}
