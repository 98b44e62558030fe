/** The wonder boards: their transfer-object conversions and the random assignment of a
    board to every player when a game is created. */
module WonderService {
  import opened Common
  import opened Ressources
  import opened Entities
  import opened GameEntities

  datatype WonderDTO = WonderDTO(
    id: int,
    name: string,
    face: string,
    startingResources: Counts,
    stageCosts: seq<Counts>,
    numberOfStages: int,
    image: string)

  /** convertToDTO: null stays null, every field is copied. */
  function ToDTO(w: Option<Wonder>): (d: Option<WonderDTO>)
    ensures d.None? <==> w.None?
    ensures d.Some? ==> (d.value.id == w.value.id && d.value.name == w.value.name
                         && d.value.face == w.value.face && d.value.stageCosts == w.value.stageCosts)
  {
    match w
    case None => None
    case Some(e) => Some(WonderDTO(e.id, e.name, e.face, e.startingResources, e.stageCosts, e.numberOfStages, e.image))
  }

  /** convertToEntity: null stays null, every field is copied. */
  function ToEntity(d: Option<WonderDTO>): (w: Option<Wonder>)
    ensures w.None? <==> d.None?
    ensures d.Some? ==> (w.value.id == d.value.id && w.value.name == d.value.name
                         && w.value.face == d.value.face && w.value.stageCosts == d.value.stageCosts)
  {
    match d
    case None => None
    case Some(e) => Some(Wonder(e.id, e.name, e.face, e.startingResources, e.stageCosts, e.numberOfStages, e.image))
  }

  /** The two conversions are inverse to each other, null included. */
  lemma ConversionRoundTrip(w: Option<Wonder>, d: Option<WonderDTO>)
    ensures ToEntity(ToDTO(w)) == w
    ensures ToDTO(ToEntity(d)) == d
  {
  }

  /** The shuffled key list of the grouping: every board name once. */
  predicate IsNameOrder(names: seq<string>, wonders: seq<Wonder>)
  {
    (forall i, j :: 0 <= i < j < |names| ==> names[i] != names[j])
    && EveryNameHasFaces(names, wonders)
    && (forall w :: w in wonders ==> w.name in names)
  }

  /** Every listed name is the name of some board of the catalogue. */
  predicate EveryNameHasFaces(names: seq<string>, wonders: seq<Wonder>)
  {
    forall i :: 0 <= i < |names| ==> FacesOf(wonders, names[i]) != []
  }

  /** The faces of a board, in catalogue order (one group of the grouping by name). */
  function FacesOf(wonders: seq<Wonder>, name: string): (r: seq<Wonder>)
    ensures forall w :: w in r <==> w in wonders && w.name == name
    ensures (exists w :: w in wonders && w.name == name) ==> r != []
  {
    if wonders == [] then []
    else
      var rest := FacesOf(wonders[1..], name);
      assert forall w :: w in wonders <==> w == wonders[0] || w in wonders[1..];
      (if wonders[0].name == name then [wonders[0]] else []) + rest
  }

  /** The board given to player i: the (i mod #names)-th shuffled name, and the face the
      random choice picks among that name's faces. */
  function AssignedWonder(wonders: seq<Wonder>, names: seq<string>, pick: nat -> nat, i: nat): (w: Wonder)
    requires EveryNameHasFaces(names, wonders) && names != []
    ensures w in wonders && w.name == names[i % |names|]
  {
    var name := names[i % |names|];
    var faces := FacesOf(wonders, name);
    faces[pick(i) % |faces|]
  }

  /** handleGameCreation on the game's players: nothing happens without players; with an
      empty catalogue the index i % 0 throws; otherwise player i gets its board and
      stage 0, and keeps everything else. */
  function AssignSpec(players: seq<PlayerState>, wonders: seq<Wonder>, names: seq<string>,
                      pick: nat -> nat): (r: Result<seq<PlayerState>>)
    requires EveryNameHasFaces(names, wonders)
  {
    if players == [] then Ok(players)
    else if names == [] then Throw(Arithmetic)
    else Ok(seq(|players|, i requires 0 <= i < |players| =>
      players[i].(wonder := Some(AssignedWonder(wonders, names, pick, i)), wonderStage := 0)))
  }

  /** Two of the first #names players never get boards of the same name. */
  lemma DistinctPicks(wonders: seq<Wonder>, names: seq<string>, pick: nat -> nat, i: nat, j: nat)
    requires IsNameOrder(names, wonders) && i < j < |names|
    ensures AssignedWonder(wonders, names, pick, i).name != AssignedWonder(wonders, names, pick, j).name
  {
    assert i % |names| == i && j % |names| == j;
  }

  /** With players, every player gets a board of the catalogue, under the name at its
      place in the shuffled list; as long as there are no more players than board names,
      no two players get boards of the same name. */
  lemma AssignedNamesDistinct(players: seq<PlayerState>, wonders: seq<Wonder>, names: seq<string>,
                              pick: nat -> nat)
    requires IsNameOrder(names, wonders) && players != [] && names != []
    ensures var r := AssignSpec(players, wonders, names, pick);
      r.Ok? && |r.value| == |players|
      && (forall i :: 0 <= i < |players| ==>
            r.value[i].wonder.Some? && r.value[i].wonder.value in wonders && r.value[i].wonderStage == 0
            && r.value[i].wonder.value.name == names[i % |names|])
      && (|players| <= |names| ==>
            forall i, j :: 0 <= i < j < |players| ==> r.value[i].wonder.value.name != r.value[j].wonder.value.name)
  {
    var r := AssignSpec(players, wonders, names, pick).value;
    if |players| <= |names| {
      forall i, j | 0 <= i < j < |players|
        ensures r[i].wonder.value.name != r[j].wonder.value.name
      {
        DistinctPicks(wonders, names, pick, i, j);
      }
    }
  }

  /** handleGameCreation. The shuffled name list and the random face choice are
      parameters. */
  method AssignWonders(g: Game, wonders: seq<Wonder>, names: seq<string>, pick: nat -> nat)
    returns (error: Option<JavaException>)
    requires IsNameOrder(names, wonders)
    modifies g`players
    ensures var r := AssignSpec(old(g.players), wonders, names, pick);
      if error.None? then r == Ok(g.players) else (r == Throw(error.value) && g.players == old(g.players))
  {
    if g.players == [] {
      assert AssignSpec(old(g.players), wonders, names, pick) == Ok(g.players);
      return None;
    }
    if names == [] {
      assert AssignSpec(old(g.players), wonders, names, pick) == Throw(Arithmetic);
      return Some(Arithmetic);
    }
    GiveBoards(g, wonders, names, pick);
    error := None;
  }

  /** The loop of handleGameCreation: player i gets its board and stage 0. */
  method GiveBoards(g: Game, wonders: seq<Wonder>, names: seq<string>, pick: nat -> nat)
    requires EveryNameHasFaces(names, wonders) && g.players != [] && names != []
    modifies g`players
    ensures Ok(g.players) == AssignSpec(old(g.players), wonders, names, pick)
  {
    ghost var r := AssignSpec(g.players, wonders, names, pick).value;
    for i := 0 to |g.players|
      invariant |g.players| == |r|
      invariant forall j :: 0 <= j < i ==> g.players[j] == r[j]
      invariant forall j :: i <= j < |g.players| ==> g.players[j] == old(g.players)[j]
    {
      var selected := AssignedWonder(wonders, names, pick, i);
      g.players := g.players[i := g.players[i].(wonder := Some(selected), wonderStage := 0)];
    }
    assert r == g.players;
  }
}
