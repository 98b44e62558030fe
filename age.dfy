/** The three ages of a game and their succession. */
module Ages {
  import opened Common

  datatype Age = AGE_I | AGE_II | AGE_III

  /** Age.getNextAge: null starts Age I, Age III has no successor. */
  function NextAge(current: Option<Age>): (next: Option<Age>)
    ensures next != current
  {
    match current
    case None => Some(AGE_I)
    case Some(AGE_I) => Some(AGE_II)
    case Some(AGE_II) => Some(AGE_III)
    case Some(AGE_III) => None
  }

  function Ordinal(a: Age): nat
  {
    match a case AGE_I => 0 case AGE_II => 1 case AGE_III => 2
  }

  /** Enum.name() / toString(). */
  function Name(a: Age): string
  {
    match a case AGE_I => "AGE_I" case AGE_II => "AGE_II" case AGE_III => "AGE_III"
  }

  /** Ages run I, II, III in ordinal order, and one step moves up exactly one. */
  lemma NextAgeIncreasesOrdinal(a: Age)
    ensures NextAge(Some(a)).Some? ==> Ordinal(NextAge(Some(a)).value) == Ordinal(a) + 1
    ensures NextAge(Some(a)).None? <==> a == AGE_III
  {
  }

  /** n applications of NextAge. */
  function Iterate(n: nat, a: Option<Age>): Option<Age>
  {
    if n == 0 then a else Iterate(n - 1, NextAge(a))
  }

  /** From Age I three steps end the game; from the start (null) it takes four, and
      every earlier step is a real age. */
  lemma {:induction false} AgesRunOut()
    ensures Iterate(3, Some(AGE_I)) == None
    ensures Iterate(4, None) == None
    ensures forall k :: 1 <= k < 4 ==> Iterate(k, None).Some?
  {
    assert Iterate(1, None) == Some(AGE_I);
    assert Iterate(2, None) == Some(AGE_II);
    assert Iterate(3, None) == Some(AGE_III);
  }
}
