/** The two column converters of resource costs. A card cost is stored as JSON, and
    older rows in a hand-written "{KEY:n,KEY:n}" form that the converter still reads;
    wonder stage costs are a JSON list of string-keyed maps whose keys are filtered to
    the enum names. The JSON library is not modelled: its answer is a parameter. */
module CostConverters {
  import opened Common
  import opened JavaText
  import opened Ressources

  /** What the JSON library makes of a column: a value, a JSON null, or a
      JsonProcessingException. */
  datatype JsonRead<T> = Parsed(value: T) | ParsedNull | ParseError

  // ---------------------------------------------------------------- RessourceCostConverter

  /** convertToDatabaseColumn: no cost is written "{}"; any other cost is the JSON
      writer's text, and a writer failure is an IllegalArgumentException. */
  function CostToColumn(attribute: Option<Counts>, writeJson: Counts -> Result<string>): (r: Result<string>)
    ensures attribute.None? || attribute.value == map[] ==> r == Ok("{}")
    ensures r.Throw? ==> r.exception == IllegalArgument("Unable to serialize card cost")
  {
    if attribute.None? || attribute.value == map[] then Ok("{}")
    else match writeJson(attribute.value)
      case Ok(text) => Ok(text)
      case Throw(_) => Throw(IllegalArgument("Unable to serialize card cost"))
  }

  /** toRessource: the key trimmed and upper-cased, "SILK" read as TEXTILE, and any other
      key that is not a constant's name skipped. */
  function ToRessource(rawKey: string): (r: Option<Resource>)
    ensures var key := ToUpper(Trim(rawKey));
      r.Some? ==> Name(r.value) == key || (key == "SILK" && r.value == TEXTILE)
  {
    var key := ToUpper(Trim(rawKey));
    ValueOf(if key == "SILK" then "TEXTILE" else key)
  }

  /** parseQuantity: the trimmed text as an int; blank or non-numeric text is skipped. */
  function ParseQuantity(rawValue: string): (q: Option<int>)
    ensures q.Some? ==> IntMin <= q.value <= IntMax && Trim(rawValue) != []
  {
    var t := Trim(rawValue);
    if t == [] then None else ParseInt(t)
  }

  /** The text between one pair of surrounding braces, if the trimmed text has them. */
  function Content(raw: string): (c: string)
  {
    var t := Trim(raw);
    if t != [] && t[0] == '{' && t[|t| - 1] == '}' then t[1..|t| - 1] else t
  }

  /** One entry of the legacy form: exactly two ':'-separated parts, a known key and a
      number, put into the map; anything else leaves the map as it is. */
  function PutEntry(m: Counts, entry: string): (m': Counts)
    ensures m'.Keys >= m.Keys
  {
    var parts := Split(entry, ':');
    if |parts| != 2 then m
    else match ToRessource(parts[0])
      case None => m
      case Some(r) =>
        match ParseQuantity(parts[1])
        case None => m
        case Some(q) => m[r := q]
  }

  /** The entries put in order, so that a later entry for a key overwrites an earlier. */
  function PutAll(m: Counts, entries: seq<string>): (m': Counts)
    decreases |entries|
  {
    if entries == [] then m else PutAll(PutEntry(m, entries[0]), entries[1..])
  }

  /** parseLegacyFormat, as a function of the raw text. */
  function LegacySpec(raw: string): (m: Counts)
  {
    var content := Content(raw);
    if IsBlank(content) then map[] else PutAll(map[], Split(content, ','))
  }

  /** Putting one more entry at the end is putting it into the result of the others:
      the last entry for a key wins. */
  lemma {:induction false} PutAllAppend(m: Counts, entries: seq<string>, e: string)
    ensures PutAll(m, entries + [e]) == PutEntry(PutAll(m, entries), e)
    decreases |entries|
  {
    if entries == [] {
      assert PutAll(m, [e]) == PutAll(PutEntry(m, e), []);
    } else {
      assert (entries + [e])[1..] == entries[1..] + [e];
      PutAllAppend(PutEntry(m, entries[0]), entries[1..], e);
    }
  }

  /** The body of the parser's loop: skip an entry without exactly two parts, with an
      unknown key or without a number; put the others. */
  method PutLegacyEntry(result: Counts, entry: string) returns (result': Counts)
    ensures result' == PutEntry(result, entry)
  {
    result' := result;
    var parts := Split(entry, ':');
    if |parts| != 2 {
      return;
    }
    var resource := ToRessource(parts[0]);
    if resource.None? {
      return;
    }
    var quantity := ParseQuantity(parts[1]);
    if quantity.None? {
      return;
    }
    result' := result[resource.value := quantity.value];
  }

  /** parseLegacyFormat: strip the braces, split on ',' and ':', and put every entry with
      a known key and a number into an EnumMap. */
  method ParseLegacyFormat(raw: string) returns (result: Counts)
    ensures result == LegacySpec(raw)
  {
    result := map[];
    var content := Trim(raw);
    if content != [] && content[0] == '{' && content[|content| - 1] == '}' {
      content := content[1..|content| - 1];
    }
    assert content == Content(raw);
    if IsBlank(content) {
      return;
    }
    result := PutEntries(Split(content, ','));
  }

  /** The loop of parseLegacyFormat over the ','-separated entries. */
  method PutEntries(entries: seq<string>) returns (result: Counts)
    ensures result == PutAll(map[], entries)
  {
    result := map[];
    var i := 0;
    while i < |entries|
      invariant 0 <= i <= |entries|
      invariant PutAll(result, entries[i..]) == PutAll(map[], entries)
    {
      assert entries[i..][0] == entries[i] && entries[i..][1..] == entries[i + 1..];
      result := PutLegacyEntry(result, entries[i]);
      i := i + 1;
    }
  }

  /** convertToEntityAttribute, as a function of the column and the JSON answer. The
      parsed map is copied into an EnumMap, whose copy constructor refuses an empty map
      that is not itself an EnumMap, and that exception is not the one caught. */
  function CostFromColumnSpec(dbData: Option<string>, readJson: string -> JsonRead<Counts>): (r: Result<Counts>)
  {
    if dbData.None? || Trim(dbData.value) == [] then Ok(map[])
    else match readJson(dbData.value)
      case Parsed(x) => if x == map[] then Throw(IllegalArgument("Specified map is empty")) else Ok(x)
      case ParsedNull => Ok(map[])
      case ParseError => Ok(LegacySpec(dbData.value))
  }

  /** convertToEntityAttribute: null or blank is no cost, a non-empty JSON object is
      taken as it is, an empty one throws, a JSON null is no cost, and text the JSON
      library refuses is read in the legacy form. */
  method CostFromColumn(dbData: Option<string>, readJson: string -> JsonRead<Counts>) returns (r: Result<Counts>)
    ensures r == CostFromColumnSpec(dbData, readJson)
  {
    if dbData.None? || Trim(dbData.value) == [] {
      return Ok(map[]);
    }
    var read := readJson(dbData.value);
    match read {
      case Parsed(x) =>
        if x == map[] {
          r := Throw(IllegalArgument("Specified map is empty"));
        } else {
          r := Ok(x);
        }
      case ParsedNull => r := Ok(map[]);
      case ParseError =>
        var m := ParseLegacyFormat(dbData.value);
        r := Ok(m);
    }
  }

  /** The reading fails only on an empty JSON object, and otherwise gives what the
      column holds: no cost when it is missing, blank or a JSON null, the JSON object's
      entries, or the legacy reading. */
  lemma CostFromColumnCases(dbData: Option<string>, readJson: string -> JsonRead<Counts>)
    ensures CostFromColumnSpec(dbData, readJson).Throw? <==>
      dbData.Some? && Trim(dbData.value) != [] && readJson(dbData.value) == Parsed(map[])
    ensures dbData.Some? && Trim(dbData.value) != [] && readJson(dbData.value).Parsed?
              && readJson(dbData.value).value != map[]
            ==> CostFromColumnSpec(dbData, readJson) == Ok(readJson(dbData.value).value)
    ensures dbData.Some? && Trim(dbData.value) != [] && readJson(dbData.value).ParseError?
      ==> CostFromColumnSpec(dbData, readJson) == Ok(LegacySpec(dbData.value))
  {
  }

  /** The reading the writer evidently expects: the parsed entries are taken whether
      or not there are any, so an empty JSON object is no cost. */
  function CostFromColumnIntended(dbData: Option<string>, readJson: string -> JsonRead<Counts>): (r: Result<Counts>)
    ensures r.Ok?
    ensures r.Ok? && CostFromColumnSpec(dbData, readJson).Ok? ==> r == CostFromColumnSpec(dbData, readJson)
  {
    if dbData.None? || Trim(dbData.value) == [] then Ok(map[])
    else match readJson(dbData.value)
      case Parsed(x) => Ok(x)
      case ParsedNull => Ok(map[])
      case ParseError => Ok(LegacySpec(dbData.value))
  }

  /** "{}" in the legacy form is no cost: the braces go, and nothing is left. */
  lemma LegacyEmptyBraces(braces: string)
    requires braces == "{}"
    ensures Trim(braces) == braces && LegacySpec(braces) == map[]
  {
    TrimUnchanged(braces);
    assert Content(braces) == [];
  }

  /** The empty cost is written as "{}", and the JSON library reads "{}" as an empty
      object; reading that column back throws, so a card without a cost cannot be
      loaded again. */
  lemma EmptyCostNotReadBack(readJson: string -> JsonRead<Counts>, writeJson: Counts -> Result<string>)
    requires readJson("{}") == Parsed(map[])
    ensures CostToColumn(Some(map[]), writeJson) == Ok("{}") && CostToColumn(None, writeJson) == Ok("{}")
    ensures CostFromColumnSpec(Some("{}"), readJson) == Throw(IllegalArgument("Specified map is empty"))
  {
    LegacyEmptyBraces("{}");
  }

  /** With the parsed entries taken as they are, the empty cost, written as "{}", comes
      back as no cost; the corrected reading never fails and agrees with the written one
      wherever that one succeeds. */
  lemma EmptyCostRoundTrip(readJson: string -> JsonRead<Counts>, writeJson: Counts -> Result<string>, dbData: Option<string>)
    requires readJson("{}") == Parsed(map[])
    ensures CostFromColumnIntended(Some(CostToColumn(None, writeJson).value), readJson) == Ok(map[])
    ensures CostFromColumnIntended(Some(CostToColumn(Some(map[]), writeJson).value), readJson) == Ok(map[])
    ensures CostFromColumnIntended(dbData, readJson).Ok?
    ensures CostFromColumnSpec(dbData, readJson).Ok? ==>
      CostFromColumnIntended(dbData, readJson) == CostFromColumnSpec(dbData, readJson)
  {
    LegacyEmptyBraces("{}");
  }

  // ---------------------------------------------------------------- the legacy form

  /** A constant's name is upper-case letters and underscores. */
  lemma NameChars(r: Resource)
    ensures |Name(r)| > 0
    ensures forall i :: 0 <= i < |Name(r)| ==> 'A' <= Name(r)[i] <= 'Z' || Name(r)[i] == '_'
  {
  }

  /** A constant's name survives trimming and upper-casing, and is not "SILK". */
  lemma NameNormal(r: Resource)
    ensures Trim(Name(r)) == Name(r) && ToUpper(Name(r)) == Name(r) && Name(r) != "SILK"
  {
    NameChars(r);
    TrimUnchanged(Name(r));
    assert |Name(r)| != 4 || Name(r)[0] == 'W';
  }

  /** toRessource reads every constant's name back. */
  lemma ToRessourceName(r: Resource)
    ensures ToRessource(Name(r)) == Some(r)
  {
    NameNormal(r);
    ValueOfName(r);
  }

  /** An upper-case key, lower-cased and padded, is upper-cased back by toRessource. */
  lemma UpperKeyAnyCase(key: string)
    requires key != [] && forall i :: 0 <= i < |key| ==> 'A' <= key[i] <= 'Z' || key[i] == '_'
    ensures ToUpper(Trim(" " + ToLower(key) + " ")) == key
  {
    var low := ToLower(key);
    assert Trim(" " + low + " ") == low by {
      LowerEnds(key);
      TrimPadded(" ", low, " ");
    }
    assert ToUpper(low) == key by {
      UpperOfLower(key);
    }
  }

  /** Lower-casing an upper-case key leaves no trimmable char at its ends. */
  lemma LowerEnds(key: string)
    requires key != [] && forall i :: 0 <= i < |key| ==> 'A' <= key[i] <= 'Z' || key[i] == '_'
    ensures var low := ToLower(key); low != [] && !IsTrimmed(low[0]) && !IsTrimmed(low[|low| - 1])
  {
    var low := ToLower(key);
    assert low[0] == LowerChar(key[0]) && low[|low| - 1] == LowerChar(key[|key| - 1]);
  }

  /** Upper-casing undoes lower-casing on upper-case letters and underscores. */
  lemma UpperOfLower(key: string)
    requires forall i :: 0 <= i < |key| ==> 'A' <= key[i] <= 'Z' || key[i] == '_'
    ensures ToUpper(ToLower(key)) == key
  {
    var low := ToLower(key);
    forall i | 0 <= i < |key| ensures ToUpper(low)[i] == key[i] {
      assert low[i] == LowerChar(key[i]);
    }
  }

  /** toRessource ignores case and surrounding blanks. */
  lemma ToRessourceAnyCase(r: Resource)
    ensures ToRessource(" " + ToLower(Name(r)) + " ") == Some(r)
  {
    assert ToUpper(Trim(" " + ToLower(Name(r)) + " ")) == Name(r) by {
      NameChars(r);
      UpperKeyAnyCase(Name(r));
    }
    assert Name(r) != "SILK" by {
      NameNormal(r);
    }
    ValueOfName(r);
  }

  /** "silk", in any case, is TEXTILE. */
  lemma SilkIsTextile(word: string)
    requires word == "silk"
    ensures ToRessource(" " + word + " ") == Some(TEXTILE)
  {
    TrimPadded(" ", word, " ");
    assert ToUpper(word) == "SILK";
    ValueOfName(TEXTILE);
  }

  /** A printed int is read back by parseQuantity. */
  lemma ParseQuantityInt(v: int)
    requires IntMin <= v <= IntMax
    ensures ParseQuantity(IntToString(v)) == Some(v)
  {
    var s := IntToString(v);
    IntToStringChars(v);
    assert s[0] in s && s[|s| - 1] in s;
    TrimUnchanged(s);
    ParseIntToString(v);
  }

  /** One legacy entry, "KEY:n". */
  function LegacyEntry(p: (Resource, int)): (e: string)
  {
    Name(p.0) + [':'] + IntToString(p.1)
  }

  /** The entries of the pairs, in order. */
  function Entries(pairs: seq<(Resource, int)>): (es: seq<string>)
  {
    seq(|pairs|, i requires 0 <= i < |pairs| => LegacyEntry(pairs[i]))
  }

  /** A cost written in the legacy form: the entries between braces, ','-separated. */
  function LegacyRender(pairs: seq<(Resource, int)>): (text: string)
  {
    "{" + Join(Entries(pairs), ',') + "}"
  }

  /** The pairs put in order into a map, a later pair overwriting an earlier one. */
  function PutPairs(m: Counts, pairs: seq<(Resource, int)>): (m': Counts)
    decreases |pairs|
  {
    if pairs == [] then m else PutPairs(m[pairs[0].0 := pairs[0].1], pairs[1..])
  }

  /** An entry holds no ',' and starts with the key's first letter. */
  lemma EntryNoComma(p: (Resource, int))
    ensures ',' !in LegacyEntry(p) && LegacyEntry(p) != [] && !IsWhitespace(LegacyEntry(p)[0])
  {
    NameChars(p.0);
    IntToStringChars(p.1);
    var e := LegacyEntry(p);
    assert e[0] == Name(p.0)[0];
    forall i | 0 <= i < |e| ensures e[i] != ',' {
      if i < |Name(p.0)| {
        assert e[i] == Name(p.0)[i];
      } else if i > |Name(p.0)| {
        assert e[i] == IntToString(p.1)[i - |Name(p.0)| - 1];
      }
    }
  }

  /** An entry splits on ':' into its key and its number. */
  lemma EntrySplits(p: (Resource, int))
    ensures Split(LegacyEntry(p), ':') == [Name(p.0), IntToString(p.1)]
  {
    NameChars(p.0);
    IntToStringChars(p.1);
    assert ':' !in Name(p.0) && ':' !in IntToString(p.1);
    SplitPair(Name(p.0), IntToString(p.1), ':');
  }

  /** An entry puts its key with its number. */
  lemma EntryPut(m: Counts, p: (Resource, int))
    requires IntMin <= p.1 <= IntMax
    ensures PutEntry(m, LegacyEntry(p)) == m[p.0 := p.1]
  {
    EntrySplits(p);
    ToRessourceName(p.0);
    ParseQuantityInt(p.1);
    PutEntryOf(m, Name(p.0), IntToString(p.1), p.0, p.1);
  }

  /** An entry of two parts with a known key and a number puts that key. */
  lemma PutEntryOf(m: Counts, key: string, num: string, r: Resource, v: int)
    requires Split(key + [':'] + num, ':') == [key, num]
    requires ToRessource(key) == Some(r) && ParseQuantity(num) == Some(v)
    ensures PutEntry(m, key + [':'] + num) == m[r := v]
  {
  }

  /** Fields splits a separator-free join back into its parts. */
  lemma {:induction false} FieldsOfJoin(parts: seq<string>, sep: char)
    requires |parts| >= 1 && forall k :: 0 <= k < |parts| ==> sep !in parts[k]
    ensures Fields(Join(parts, sep), sep) == parts
  {
    if |parts| == 1 {
      SplitNoSeparator(parts[0], sep);
    } else {
      FieldsOfJoin(parts[1..], sep);
      FieldsConcat(parts[0], Join(parts[1..], sep), sep);
    }
  }

  /** Putting the rendered entries is putting the pairs. */
  lemma {:induction false} PutAllEntries(m: Counts, pairs: seq<(Resource, int)>)
    requires forall k :: 0 <= k < |pairs| ==> IntMin <= pairs[k].1 <= IntMax
    ensures PutAll(m, Entries(pairs)) == PutPairs(m, pairs)
    decreases |pairs|
  {
    var es := Entries(pairs);
    if pairs != [] {
      assert es[0] == LegacyEntry(pairs[0]);
      assert es[1..] == Entries(pairs[1..]);
      assert PutEntry(m, es[0]) == m[pairs[0].0 := pairs[0].1] by {
        EntryPut(m, pairs[0]);
      }
      PutAllEntries(m[pairs[0].0 := pairs[0].1], pairs[1..]);
    }
  }

  /** The joined entries split back into the entries, and start with a letter. */
  lemma JoinedEntries(pairs: seq<(Resource, int)>)
    requires pairs != []
    ensures var body := Join(Entries(pairs), ',');
      body != [] && !IsWhitespace(body[0]) && Split(body, ',') == Entries(pairs)
  {
    var es := Entries(pairs);
    forall k | 0 <= k < |es| ensures ',' !in es[k] && es[k] != [] {
      EntryNoComma(pairs[k]);
    }
    EntryNoComma(pairs[0]);
    var body := Join(es, ',');
    FieldsOfJoin(es, ',');
    assert body != [] && body[0] == es[0][0] by {
      if |es| > 1 {
        assert body == es[0] + [','] + Join(es[1..], ',');
      }
    }
  }

  /** The content of a braced text is what lies between the braces. */
  lemma BracedContent(body: string)
    ensures Content(['{'] + body + ['}']) == body
  {
    var text := ['{'] + body + ['}'];
    TrimUnchanged(text);
    assert text[1..|text| - 1] == body;
  }

  /** Reading a legacy cost back: every key with its number, a later duplicate winning. */
  lemma LegacyRoundTrip(pairs: seq<(Resource, int)>)
    requires pairs != []
    requires forall k :: 0 <= k < |pairs| ==> IntMin <= pairs[k].1 <= IntMax
    ensures LegacySpec(LegacyRender(pairs)) == PutPairs(map[], pairs)
  {
    var es := Entries(pairs);
    var body := Join(es, ',');
    assert LegacyRender(pairs) == ['{'] + body + ['}'];
    assert Content(LegacyRender(pairs)) == body by {
      BracedContent(body);
    }
    assert !IsBlank(body) && Split(body, ',') == es by {
      JoinedEntries(pairs);
    }
    assert PutAll(map[], es) == PutPairs(map[], pairs) by {
      PutAllEntries(map[], pairs);
    }
  }

  /** A later pair for a key overwrites every earlier one. */
  lemma {:induction false} LaterPairWins(m: Counts, pairs: seq<(Resource, int)>, r: Resource, v: int)
    ensures PutPairs(m, pairs + [(r, v)]) == PutPairs(m, pairs)[r := v]
    decreases |pairs|
  {
    if pairs != [] {
      assert (pairs + [(r, v)])[1..] == pairs[1..] + [(r, v)];
      LaterPairWins(m[pairs[0].0 := pairs[0].1], pairs[1..], r, v);
    }
  }

  // ---------------------------------------------------------------- StageCostsConverter

  /** One stage as JSON gives it: its entries, or null. */
  type RawStage = Option<seq<(string, int)>>

  /** convertToDatabaseColumn: no stages are written "[]"; other lists are the JSON
      writer's text, and a writer failure is an IllegalArgumentException. */
  function StagesToColumn(attribute: Option<seq<Counts>>, writeJson: seq<Counts> -> Result<string>): (r: Result<string>)
    ensures attribute.None? || attribute.value == [] ==> r == Ok("[]")
    ensures r.Throw? ==> r.exception == IllegalArgument("Unable to serialize stage costs")
  {
    if attribute.None? || attribute.value == [] then Ok("[]")
    else match writeJson(attribute.value)
      case Ok(text) => Ok(text)
      case Throw(_) => Throw(IllegalArgument("Unable to serialize stage costs"))
  }

  /** The entries whose key is exactly a constant's name, put in order. */
  function PutKnown(m: Counts, entries: seq<(string, int)>): (m': Counts)
    decreases |entries|
  {
    if entries == [] then m
    else match ValueOf(entries[0].0)
      case None => PutKnown(m, entries[1..])
      case Some(r) => PutKnown(m[r := entries[0].1], entries[1..])
  }

  /** The EnumMap of one stage: empty for a null stage. */
  function StageMap(raw: RawStage): (m: Counts)
  {
    if raw.None? then map[] else PutKnown(map[], raw.value)
  }

  /** The key filter: a constant is in the stage's map exactly when some entry's key is
      its exact (case-sensitive) name. */
  lemma {:induction false} PutKnownKeys(m: Counts, entries: seq<(string, int)>, r: Resource)
    ensures r in PutKnown(m, entries) <==>
      r in m || exists k :: 0 <= k < |entries| && entries[k].0 == Name(r)
    decreases |entries|
  {
    if entries != [] {
      var e := entries[0];
      var m1 := if ValueOf(e.0).Some? then m[ValueOf(e.0).value := e.1] else m;
      PutKnownKeys(m1, entries[1..], r);
      ValueOfName(r);
      if e.0 == Name(r) {
        assert r in m1;
      } else {
        assert ValueOf(e.0) != Some(r);
        if exists k :: 0 <= k < |entries[1..]| && entries[1..][k].0 == Name(r) {
          var k :| 0 <= k < |entries[1..]| && entries[1..][k].0 == Name(r);
          assert entries[k + 1].0 == Name(r);
        }
        if exists k :: 0 <= k < |entries| && entries[k].0 == Name(r) {
          var k :| 0 <= k < |entries| && entries[k].0 == Name(r);
          assert k > 0 && entries[1..][k - 1].0 == Name(r);
        }
      }
    }
  }

  /** Keys in another case, or unknown, are dropped: a stage of such entries is empty. */
  lemma UnknownKeysDropped(entries: seq<(string, int)>)
    requires forall k :: 0 <= k < |entries| ==> ValueOf(entries[k].0).None?
    ensures StageMap(Some(entries)) == map[]
  {
    forall r ensures r !in StageMap(Some(entries)) {
      PutKnownKeys(map[], entries, r);
      if exists k :: 0 <= k < |entries| && entries[k].0 == Name(r) {
        var k :| 0 <= k < |entries| && entries[k].0 == Name(r);
        ValueOfName(r);
      }
    }
  }

  /** The inner loop of the post-pass: the entries of one stage with a known key, put
      into an EnumMap; a null stage gives an empty map. */
  method StageEnumMap(raw: RawStage) returns (enumMap: Counts)
    ensures enumMap == StageMap(raw)
  {
    enumMap := map[];
    if raw.Some? {
      var entries := raw.value;
      var k := 0;
      while k < |entries|
        invariant 0 <= k <= |entries|
        invariant PutKnown(enumMap, entries[k..]) == StageMap(raw)
      {
        assert entries[k..][0] == entries[k] && entries[k..][1..] == entries[k + 1..];
        var key := ValueOf(entries[k].0);
        if key.Some? {
          enumMap := enumMap[key.value := entries[k].1];
        }
        k := k + 1;
      }
    }
  }

  /** The post-pass: one EnumMap per stage, in stage order. */
  method ConvertStages(rawList: seq<RawStage>) returns (result: seq<Counts>)
    ensures |result| == |rawList|
    ensures forall i :: 0 <= i < |rawList| ==> result[i] == StageMap(rawList[i])
  {
    result := [];
    var i := 0;
    while i < |rawList|
      invariant 0 <= i <= |rawList| && |result| == i
      invariant forall j :: 0 <= j < i ==> result[j] == StageMap(rawList[j])
    {
      var enumMap := StageEnumMap(rawList[i]);
      result := result + [enumMap];
      i := i + 1;
    }
  }

  /** convertToEntityAttribute: null or blank, a JSON null, an empty list or a parse
      error all give no stages; otherwise one map per parsed stage, in order. */
  method StagesFromColumn(dbData: Option<string>, readJson: string -> JsonRead<seq<RawStage>>)
    returns (stages: seq<Counts>)
    ensures dbData.None? || Trim(dbData.value) == [] ==> stages == []
    ensures dbData.Some? && Trim(dbData.value) != [] ==>
      match readJson(dbData.value)
      case Parsed(raw) =>
        |stages| == |raw| && forall i :: 0 <= i < |raw| ==> stages[i] == StageMap(raw[i])
      case _ => stages == []
  {
    if dbData.None? || Trim(dbData.value) == [] {
      return [];
    }
    var read := readJson(dbData.value);
    if read.ParseError? || read.ParsedNull? || read.value == [] {
      return [];
    }
    stages := ConvertStages(read.value);
  }
}
