# Seven Wonders server and client rules, in Dafny

A model of the rules engine of a web implementation of the board game 7 Wonders, with
its parsers, validators, state machines and controllers, the application log and three
browser scripts. Each Java class of the core is one module:

- `Ressources`, `Ages`, `LogLevels`: the resource taxonomy (seven resources, two wildcards
  and six pairs), the succession of the three ages and the log severities.
- `Entities`, `GameEntities`: the persistent records as values; the game record as a class
  whose lobby operations (`addUser`, `removeUser`, `addPlayerState`) update it in place.
- `CardPlay`, `WonderBuild`, `EffectExecutor`: what a player lacks for a cost, the purchase
  from the neighbours, the payment, playing and discarding a card, building a wonder stage,
  and the interpreter of effect strings (`VP:n`, `COINS:n`, `PRICE:s:p`, pair and keyword
  effects).
- `CardDistribution`, `TurnManager`, `GameStateManager`, `GameInit`: dealing 7-card hands
  and rotating them, the end-of-turn state machine (pending effects, the pause for building
  from the discard pile, the last-card discard, the next age), the lifecycle transitions
  with end-game scoring, and seating with circular neighbours.
- `CardActionService`: the older variant of the same rules.
- `GameService`, `GameController`, `WonderService`, `WonderDecider`, `CardService`: game
  creation and the lobby guards, the creation form, board assignment and side choice, and
  the grouped catalogue.
- `GameStateView`, `GameStateApi`: what the game page reads (available actions, the other
  players) and the two card endpoints (`cardAction`, `selectDiscardCard`).
- `CostConverters`, `JavaText`: the column converters of costs (JSON and the legacy
  `{STONE:2, WOOD:1}` form) over a model of the `java.lang.String` operations they use.
- `LoggingService`, `LogController`: the log table (save, mark read, purge) and the
  administrator's filtered pages.
- `Users`: registration constraints, username normalisation, registration and login lookup.
- `HandSelection`, `TurnBlocker`: the browser's hand with its selection, and the edge-
  triggered turn-blocker latch.

Objects the source updates in place are classes with `modifies` clauses (the game, the log
table, the user store, the browser hand, the turn blocker); every such method is proved
against a function of the old state, and the properties are proved about those functions.
Randomness (shuffles, board choice), the clock, the JSON library, the password encoder and
the database lookups of effects are parameters.

Where the code and its evident intent disagree, the model carries both: the code as
written, with a lemma exhibiting the difference, and the intended version, which the
endpoints use (see "## Findings").

## Model

| member | source | states |
|---|---|---|
| Ages.NextAge | src/main/java/com/reynaud/wonders/model/Age.java:8-22 | getNextAge never returns its argument: null starts Age I, each age moves on, Age III has no successor |
| Ages.NextAgeIncreasesOrdinal | src/main/java/com/reynaud/wonders/model/Age.java:8-22 | one step of getNextAge raises the ordinal by exactly one, and only Age III yields null |
| Ages.AgesRunOut | src/main/java/com/reynaud/wonders/model/Age.java:8-22 | from Age I three steps reach null, from null four; each earlier step is a real age |
| LogLevels.SeverityTable | src/main/java/com/reynaud/wonders/model/LogLevel.java:4-24 | the severities are 0..4 in declaration order and every label equals the constant's name |
| LogLevels.IsAtLeastAsTotalOrder | src/main/java/com/reynaud/wonders/model/LogLevel.java:29-31 | isAtLeastAs is reflexive, transitive, total and antisymmetric |
| Ressources.Ordinal | src/main/java/com/reynaud/wonders/model/Ressources.java:3-19 | the ordinal indexes the declaration order and points back at the constant |
| Ressources.ValueOf | src/main/java/com/reynaud/wonders/model/Ressources.java:3-19 | Enum.valueOf finds only a constant whose name is exactly the string |
| Ressources.FindByName | src/main/java/com/reynaud/wonders/model/Ressources.java:3-19 | the lookup returns a candidate with that name, and fails only when no candidate has it |
| Ressources.ValueOfName | src/main/java/com/reynaud/wonders/model/Ressources.java:3-19 | valueOf(name()) is the identity on every constant |
| Ressources.NameInjective | src/main/java/com/reynaud/wonders/model/Ressources.java:3-19 | two constants with the same name are the same constant |
| Ressources.ConcreteExactly | src/main/java/com/reynaud/wonders/model/Ressources.java:21-26 | isRessource holds exactly for STONE, WOOD, ORE, BRICK, GLASS, PAPER and TEXTILE |
| Ressources.BaseAdvancedPartition | src/main/java/com/reynaud/wonders/model/Ressources.java:28-40 | isBaseRessource and isAdvancedRessource are disjoint and together are exactly isRessource |
| Ressources.PairsExactly | src/main/java/com/reynaud/wonders/model/Ressources.java:42-47 | isMutablePair holds exactly for the six pair constants, none of which is a concrete resource |
| Ressources.PairOptionsShape | src/main/java/com/reynaud/wonders/model/Ressources.java:53-63 | getPairOptions is non-null exactly on a pair, and then gives two distinct base resources in declaration order |
| Ressources.IndexTable | src/main/java/com/reynaud/wonders/model/Ressources.java:4-12 | the first nine constants, in order, are the index table 0..8 |
| Ressources.Merge | src/main/java/com/reynaud/wonders/model/Ressources.java:3-19 | Map.merge(r, v, Integer::sum) adds v to r's count, leaves every other count alone and adds r as a key |
| Entities.NewPlayerState | src/main/java/com/reynaud/wonders/entity/PlayerStateEntity.java:35-87 | a new player state starts with 3 coins, stage 0, an empty hand and not having played |
| GameEntities.Game.constructor | src/main/java/com/reynaud/wonders/entity/GameEntity.java:27-100 | a new game is WAITING, at turn 0 and index 0, with bounds 3 and 7, no age, no users, players, discard, winner or timestamps |
| GameEntities.Game.AddUser | src/main/java/com/reynaud/wonders/entity/GameEntity.java:245-247 | addUser appends the user and changes nothing else |
| GameEntities.Game.RemoveUser | src/main/java/com/reynaud/wonders/entity/GameEntity.java:249-251 | removeUser drops the first equal user, so the list shrinks by one exactly when the user was present |
| GameEntities.Game.AddPlayerState | src/main/java/com/reynaud/wonders/entity/GameEntity.java:253-256 | addPlayerState appends the state with its game reference set to this game |
| GameEntities.Game.RemovePlayerState | src/main/java/com/reynaud/wonders/entity/GameEntity.java:258-261 | removePlayerState drops the first equal state and clears its game reference |
| GameEntities.FullImpliesEnough | src/main/java/com/reynaud/wonders/entity/GameEntity.java:263-269 | with minPlayers <= maxPlayers a full game has enough players, and an empty game is neither full nor ready |
| JavaText.TrimFrom | src/main/java/com/reynaud/wonders/service/UserService.java:26 | String.trim's first loop stops at the first char above ' ', having passed only trimmable chars |
| JavaText.TrimTo | src/main/java/com/reynaud/wonders/service/UserService.java:26 | String.trim's second loop stops after the last char above ' ', having dropped only trimmable chars |
| JavaText.TrimShape | src/main/java/com/reynaud/wonders/service/UserService.java:26 | the trimmed string is a slice of the input, has no trimmable char at either end, and trimming twice changes nothing |
| JavaText.TrimUnchanged | src/main/java/com/reynaud/wonders/entity/RessourceCostConverter.java:48 | a string starting and ending with a kept char is returned as it is |
| JavaText.TrimPadded | src/main/java/com/reynaud/wonders/controller/LogController.java:315-317 | trimming removes exactly the trimmable padding around a word |
| JavaText.BlankTrimsToEmpty | src/main/java/com/reynaud/wonders/entity/RessourceCostConverter.java:52 | a blank string (String.isBlank) trims to a blank string, and to "" exactly when all of its chars are ones trim removes (see Left out) |
| JavaText.WideSpaceKeptByTrim | src/main/java/com/reynaud/wonders/entity/RessourceCostConverter.java:52 | the ideographic space U+3000 is blank for isBlank but trim keeps it |
| JavaText.ToUpper | src/main/java/com/reynaud/wonders/entity/RessourceCostConverter.java:83 | toUpperCase keeps the length and maps each char on its own |
| JavaText.ToLower | src/main/java/com/reynaud/wonders/service/UserService.java:26 | toLowerCase keeps the length and maps each char on its own |
| JavaText.UpperIdempotent | src/main/java/com/reynaud/wonders/entity/RessourceCostConverter.java:83 | upper-casing twice is upper-casing once, and is case-insensitively a no-op |
| JavaText.EqualsIgnoreCaseEquivalence | src/main/java/com/reynaud/wonders/controller/LogController.java:317 | equalsIgnoreCase is reflexive, symmetric and transitive |
| JavaText.Fields | src/main/java/com/reynaud/wonders/service/EffectExecutorService.java:77 | the fields between separators are never an empty list and hold no separator |
| JavaText.JoinFields | src/main/java/com/reynaud/wonders/service/EffectExecutorService.java:77 | gluing the fields back with the separator gives the input |
| JavaText.DropTrailingEmpty | src/main/java/com/reynaud/wonders/service/EffectExecutorService.java:77 | split's limit 0 drops exactly the trailing empty strings, keeping a prefix |
| JavaText.Split | src/main/java/com/reynaud/wonders/service/EffectExecutorService.java:77 | no piece of split around a one-char regex holds the separator |
| JavaText.SplitNoSeparator | src/main/java/com/reynaud/wonders/service/EffectExecutorService.java:132-134 | a string without the separator splits into itself |
| JavaText.FieldsConcat | src/main/java/com/reynaud/wonders/service/EffectExecutorService.java:142 | the fields of a + sep + b are a followed by the fields of b |
| JavaText.SplitPair | src/main/java/com/reynaud/wonders/service/EffectExecutorService.java:142-158 | two separator-free pieces joined by the separator split back into exactly those pieces |
| JavaText.SplitIsPrefixOfFields | src/main/java/com/reynaud/wonders/entity/RessourceCostConverter.java:56-58 | split keeps the fields, in order, up to the last non-empty one |
| JavaText.ParseInt | src/main/java/com/reynaud/wonders/service/EffectExecutorService.java:108 | Integer.parseInt succeeds only on an optional sign followed by ASCII digits, with a 32-bit value (see Left out) |
| JavaText.NatToString | src/main/java/com/reynaud/wonders/service/EffectExecutorService.java:108 | Integer.toString of a natural number is a non-empty digit string |
| JavaText.IntToStringChars | src/main/java/com/reynaud/wonders/service/EffectExecutorService.java:108 | a printed int holds only a sign and digits, and starts with a digit when non-negative |
| JavaText.NatToStringValue | src/main/java/com/reynaud/wonders/service/EffectExecutorService.java:108 | the digits printed for n are worth n |
| JavaText.ParseIntToString | src/main/java/com/reynaud/wonders/service/EffectExecutorService.java:108 | parseInt(Integer.toString(n)) == n for every 32-bit n |
| JavaText.LowerWord | src/main/java/com/reynaud/wonders/controller/LogController.java:315-317 | a constant's upper-case name, lower-cased, has nothing to trim and still equals the name ignoring case |
| JavaText.LowerLetters | src/main/java/com/reynaud/wonders/controller/LogController.java:315 | a lower-cased upper-case name holds only small letters and no comma |
| JavaText.EqualsIgnoreCaseLower | src/main/java/com/reynaud/wonders/controller/LogController.java:317 | every text equals its lower-case form ignoring case |
| Users.NotBlankIsTrim | src/main/java/com/reynaud/wonders/dto/UserDTO.java:10-23 | @NotBlank accepts exactly the non-null values that trim to a non-empty string |
| Users.ViolationMembers | src/main/java/com/reynaud/wonders/dto/UserDTO.java:10-23 | each of the six annotations reports its violation exactly when its constraint fails |
| Users.ValidIff | src/main/java/com/reynaud/wonders/dto/UserDTO.java:10-23 | a form is valid iff the username is non-blank with 3..50 chars, the password non-blank with 8..72 chars, one line, a letter and a digit, and the confirmation non-blank |
| Users.WordNotBlank | src/main/java/com/reynaud/wonders/dto/UserDTO.java:10 | a word starting with a kept char is not blank |
| Users.ConfirmationNotCompared | src/main/java/com/reynaud/wonders/dto/UserDTO.java:22-23 | the validator does not compare the two passwords: any non-blank confirmation gives the same violations |
| Users.PasswordFieldsClean | src/main/java/com/reynaud/wonders/dto/UserDTO.java:10-23 | with acceptable password fields only the username's required and size rules can report |
| Users.SingleClassPasswordRefused | src/main/java/com/reynaud/wonders/dto/UserDTO.java:16-19 | a password of digits only, or of letters only, breaks the pattern |
| Users.Normalise | src/main/java/com/reynaud/wonders/service/UserService.java:26 | the normalised name is never longer than the name |
| Users.LowerKeepsTrimmed | src/main/java/com/reynaud/wonders/service/UserService.java:26 | lower-casing a trimmed name leaves nothing to trim |
| Users.NormaliseIdempotent | src/main/java/com/reynaud/wonders/security/MyUserDetailsService.java:24 | normalising twice is normalising once, so a stored name finds itself |
| Users.FindByUsername | src/main/java/com/reynaud/wonders/service/UserService.java:47-49 | the lookup returns a stored user with exactly that name, and fails only when none carries it |
| Users.UsernameExistsIff | src/main/java/com/reynaud/wonders/service/UserService.java:42-44 | usernameExists holds exactly when some stored user has the name |
| Users.FindAppended | src/main/java/com/reynaud/wonders/service/UserService.java:39 | after saving a user whose name was free, the lookup finds that user |
| Users.UserStore.constructor | src/main/java/com/reynaud/wonders/service/UserService.java:19-22 | the store starts empty |
| Users.UserStore.RegisterUser | src/main/java/com/reynaud/wonders/service/UserService.java:25-40 | registerUser returns the outcome of the registration function and appends the user only on success |
| Users.RegisterThenDuplicate | src/main/java/com/reynaud/wonders/service/UserService.java:25-40 | a registered user carries the normalised name and the encoder's hash; a later registration of any spelling normalising the same fails with "Username already exists" |
| Users.LoadUserByUsername | src/main/java/com/reynaud/wonders/security/MyUserDetailsService.java:23-31 | loading succeeds iff the normalised name is stored, returns that user, and otherwise fails with "User not found with username: " and the name as given |
| Users.RegisterThenLoad | src/main/java/com/reynaud/wonders/security/MyUserDetailsService.java:23-31 | a user registered under one spelling loads, as the same stored user, under any spelling normalising the same |
| Users.ShowRegistrationForm | src/main/java/com/reynaud/wonders/controller/RegistrationController.java:28-33 | the register page starts with an empty form |
| Users.EmptyFormRefused | src/main/java/com/reynaud/wonders/controller/RegistrationController.java:40-44 | the empty form reports all three required fields |
| Users.RegistrationSucceedsIff | src/main/java/com/reynaud/wonders/controller/RegistrationController.java:35-68 | the login redirect with the success flash happens iff the form is valid, the passwords agree and the service registers, and then the name is taken |
| Users.RegistrationRefusals | src/main/java/com/reynaud/wonders/controller/RegistrationController.java:40-49 | every other outcome stays on the register page and stores nothing; binding errors come before the password comparison |
| Users.DuplicateShown | src/main/java/com/reynaud/wonders/controller/RegistrationController.java:59-62 | a duplicate name returns to the register page with the service's message and stores nothing |
| Users.SubmitRegistration | src/main/java/com/reynaud/wonders/controller/RegistrationController.java:35-68 | the view and the stored users after a submission are those of the registration function |
| CostConverters.CostToColumn | src/main/java/com/reynaud/wonders/entity/RessourceCostConverter.java:17-27 | a null or empty cost is written "{}"; a writer failure becomes IllegalArgumentException("Unable to serialize card cost") |
| CostConverters.ToRessource | src/main/java/com/reynaud/wonders/entity/RessourceCostConverter.java:78-93 | the key is trimmed and upper-cased, "SILK" is read as TEXTILE, and a key naming no constant gives null |
| CostConverters.ParseQuantity | src/main/java/com/reynaud/wonders/entity/RessourceCostConverter.java:95-105 | a quantity is read only from non-blank text, as a 32-bit int |
| CostConverters.PutEntry | src/main/java/com/reynaud/wonders/entity/RessourceCostConverter.java:57-74 | one legacy entry only ever adds keys to the map |
| CostConverters.PutAllAppend | src/main/java/com/reynaud/wonders/entity/RessourceCostConverter.java:57-74 | putting one more entry at the end is putting it into the result of the others, so the last entry for a key wins |
| CostConverters.PutLegacyEntry | src/main/java/com/reynaud/wonders/entity/RessourceCostConverter.java:58-73 | one pass of the loop: an entry without exactly two parts, with an unknown key or without a number is skipped; the others are put |
| CostConverters.ParseLegacyFormat | src/main/java/com/reynaud/wonders/entity/RessourceCostConverter.java:46-76 | parseLegacyFormat strips one pair of braces, splits on ',' and ':', and puts every well-formed entry |
| CostConverters.PutEntries | src/main/java/com/reynaud/wonders/entity/RessourceCostConverter.java:56-75 | the loop over the ','-separated entries puts them in order |
| CostConverters.CostFromColumn | src/main/java/com/reynaud/wonders/entity/RessourceCostConverter.java:29-44 | convertToEntityAttribute (as written): a null or blank column or a JSON null is no cost, a non-empty JSON object is taken, an empty one throws from the EnumMap copy, and text the JSON library refuses is read in the legacy form |
| CostConverters.CostFromColumnCases | src/main/java/com/reynaud/wonders/entity/RessourceCostConverter.java:29-44 | the reading throws exactly on a present, non-blank column that parses to an empty JSON object; otherwise it gives the parsed entries or the legacy reading |
| CostConverters.CostFromColumnIntended | src/main/java/com/reynaud/wonders/entity/RessourceCostConverter.java:29-44 | the corrected reading never throws and agrees with the as-written one wherever that succeeds |
| CostConverters.LegacyEmptyBraces | src/main/java/com/reynaud/wonders/entity/RessourceCostConverter.java:46-54 | "{}" in the legacy form is no cost |
| CostConverters.EmptyCostNotReadBack | src/main/java/com/reynaud/wonders/entity/RessourceCostConverter.java:19-20 | an empty or null cost is written "{}", which the as-written reading cannot read back: it throws "Specified map is empty" |
| CostConverters.EmptyCostRoundTrip | src/main/java/com/reynaud/wonders/entity/RessourceCostConverter.java:17-44 | with the corrected reading an empty or null cost comes back as no cost, and the reading never fails |
| CostConverters.NameChars | src/main/java/com/reynaud/wonders/model/Ressources.java:4-19 | every constant's name is non-empty upper-case letters and underscores |
| CostConverters.NameNormal | src/main/java/com/reynaud/wonders/entity/RessourceCostConverter.java:83-86 | a constant's name survives trimming and upper-casing and is not "SILK" |
| CostConverters.ToRessourceName | src/main/java/com/reynaud/wonders/entity/RessourceCostConverter.java:78-93 | toRessource reads every constant's name back |
| CostConverters.UpperKeyAnyCase | src/main/java/com/reynaud/wonders/entity/RessourceCostConverter.java:83 | an upper-case key, lower-cased and padded, normalises back to itself |
| CostConverters.LowerEnds | src/main/java/com/reynaud/wonders/entity/RessourceCostConverter.java:83 | a lower-cased upper-case key has no trimmable char at its ends |
| CostConverters.UpperOfLower | src/main/java/com/reynaud/wonders/entity/RessourceCostConverter.java:83 | upper-casing undoes lower-casing on upper-case letters and underscores |
| CostConverters.ToRessourceAnyCase | src/main/java/com/reynaud/wonders/entity/RessourceCostConverter.java:78-93 | toRessource ignores case and surrounding blanks |
| CostConverters.SilkIsTextile | src/main/java/com/reynaud/wonders/entity/RessourceCostConverter.java:84-86 | "silk" in any case is TEXTILE |
| CostConverters.ParseQuantityInt | src/main/java/com/reynaud/wonders/entity/RessourceCostConverter.java:95-105 | every printed 32-bit int is read back by parseQuantity |
| CostConverters.EntryNoComma | src/main/java/com/reynaud/wonders/entity/RessourceCostConverter.java:56 | a legacy entry holds no ',' and does not start with a blank |
| CostConverters.EntrySplits | src/main/java/com/reynaud/wonders/entity/RessourceCostConverter.java:58 | a legacy entry splits on ':' into its key and its number |
| CostConverters.EntryPut | src/main/java/com/reynaud/wonders/entity/RessourceCostConverter.java:58-73 | a legacy entry puts its key with its number |
| CostConverters.PutEntryOf | src/main/java/com/reynaud/wonders/entity/RessourceCostConverter.java:58-73 | a two-part entry with a known key and a number puts that key with that number |
| CostConverters.FieldsOfJoin | src/main/java/com/reynaud/wonders/entity/RessourceCostConverter.java:56 | the fields of a separator-free join are its parts |
| CostConverters.PutAllEntries | src/main/java/com/reynaud/wonders/entity/RessourceCostConverter.java:56-75 | putting the rendered entries is putting the pairs |
| CostConverters.JoinedEntries | src/main/java/com/reynaud/wonders/entity/RessourceCostConverter.java:48-56 | the joined entries split back into the entries and start with a letter |
| CostConverters.BracedContent | src/main/java/com/reynaud/wonders/entity/RessourceCostConverter.java:49-51 | the content of a braced text is what lies between the braces |
| CostConverters.LegacyRoundTrip | src/main/java/com/reynaud/wonders/entity/RessourceCostConverter.java:46-76 | a cost rendered in the legacy form reads back as every key with its number, a later duplicate winning |
| CostConverters.LaterPairWins | src/main/java/com/reynaud/wonders/entity/RessourceCostConverter.java:73 | a later pair for a key overwrites every earlier one |
| CostConverters.StagesToColumn | src/main/java/com/reynaud/wonders/entity/StageCostsConverter.java:25-35 | a null or empty stage list is written "[]"; a writer failure becomes IllegalArgumentException("Unable to serialize stage costs") |
| CostConverters.PutKnownKeys | src/main/java/com/reynaud/wonders/entity/StageCostsConverter.java:54-60 | a constant is in a stage's map exactly when some entry's key is its exact, case-sensitive name |
| CostConverters.UnknownKeysDropped | src/main/java/com/reynaud/wonders/entity/StageCostsConverter.java:55-59 | a stage whose keys name no constant is an empty map |
| CostConverters.StageEnumMap | src/main/java/com/reynaud/wonders/entity/StageCostsConverter.java:52-61 | the inner loop builds the stage's map; a null stage gives an empty map |
| CostConverters.ConvertStages | src/main/java/com/reynaud/wonders/entity/StageCostsConverter.java:49-64 | one map per stage, in stage order |
| CostConverters.StagesFromColumn | src/main/java/com/reynaud/wonders/entity/StageCostsConverter.java:37-68 | a null or blank column, a JSON null, an empty list or a parse error give no stages; otherwise one map per parsed stage, in order |
| LoggingService.SelectExact | src/main/java/com/reynaud/wonders/dao/LogDAO.java:21-53 | a query keeps exactly the table's entries meeting its condition, and never more than the table holds |
| LoggingService.SelectCounts | src/main/java/com/reynaud/wonders/dao/LogDAO.java:21-53 | each matching entry is selected as often as the table holds it, and no other entry is |
| LoggingService.BeforeSplits | src/main/java/com/reynaud/wonders/service/LoggingService.java:185-191 | the entries older than a cutoff and the others together make up the whole table |
| LoggingService.Insert | src/main/java/com/reynaud/wonders/dao/LogDAO.java:21 | inserting into the ordered list adds exactly that entry |
| LoggingService.Newest | src/main/java/com/reynaud/wonders/dao/LogDAO.java:21 | ORDER BY timestamp DESC is a permutation of its input |
| LoggingService.InsertKeepsOrder | src/main/java/com/reynaud/wonders/dao/LogDAO.java:21 | inserting into a newest-first list keeps it newest first |
| LoggingService.NewestSorted | src/main/java/com/reynaud/wonders/dao/LogDAO.java:21 | the ordered result is newest first and a permutation of its input |
| LoggingService.RequestForPage | src/main/java/com/reynaud/wonders/service/LoggingService.java:109 | PageRequest.of(page - 1, 50) accepts exactly the page numbers from 1 up, as index page - 1 of size 50; others throw IllegalArgumentException |
| LoggingService.PagesTile | src/main/java/com/reynaud/wonders/service/LoggingService.java:108-111 | pages tile the ordered result: entry k sits at position k % size of page k / size, a page holds at most size entries, and the total is the result's size |
| LoggingService.PagedContent | src/main/java/com/reynaud/wonders/service/LoggingService.java:108-130 | page p of a query is entries 50(p-1) up to 50p of the newest-first selection, in order, with the selection's size as total; a page past the end is empty |
| LoggingService.SliceKeepsOrder | src/main/java/com/reynaud/wonders/dao/LogDAO.java:21 | a slice of a newest-first list is newest first and holds only the list's entries |
| LoggingService.QueriesMatch | src/main/java/com/reynaud/wonders/service/LoggingService.java:117-130 | getLogsByLevel holds only entries of that level, getLogsBySource only entries of that source |
| LoggingService.NewestMembers | src/main/java/com/reynaud/wonders/dao/LogDAO.java:21 | the ordered result has the input's length and members |
| LoggingService.ListQueriesExact | src/main/java/com/reynaud/wonders/service/LoggingService.java:136-154 | getUnreadLogs and getRecentLogs return exactly the unread entries and those after the instant, newest first, and getUnreadLogsCount is the unread list's size |
| LoggingService.MarkReadExact | src/main/java/com/reynaud/wonders/service/LoggingService.java:160-167 | marking sets only read flags: the listed ids become read, others keep their flag, every other field is kept, and an id no entry has is ignored |
| LoggingService.MarkUnreadIsAllRead | src/main/java/com/reynaud/wonders/service/LoggingService.java:173-179 | marking the unread entries' ids marks everything and leaves nothing unread |
| LoggingService.NoneUnread | src/main/java/com/reynaud/wonders/service/LoggingService.java:144-146 | a table with every entry read counts no unread entry |
| LoggingService.FindById | src/main/java/com/reynaud/wonders/service/LoggingService.java:162 | findById gives the position of an entry with that id, and nothing only when no entry has it |
| LoggingService.MarkOneStep | src/main/java/com/reynaud/wonders/service/LoggingService.java:161-166 | with unique ids, marking the entry found for an id is marking that id |
| LoggingService.LogTable.constructor | src/main/java/com/reynaud/wonders/service/LoggingService.java:28-30 | the log table starts empty with valid ids |
| LoggingService.LogTable.Log | src/main/java/com/reynaud/wonders/service/LoggingService.java:91-102 | log saves exactly one new entry, stamped now, unread, with a trace only when a throwable is given, under a fresh id |
| LoggingService.LogTable.Debug | src/main/java/com/reynaud/wonders/service/LoggingService.java:36-38 | debug saves one DEBUG entry without trace |
| LoggingService.LogTable.Info | src/main/java/com/reynaud/wonders/service/LoggingService.java:44-46 | info saves one INFO entry without trace |
| LoggingService.LogTable.Warning | src/main/java/com/reynaud/wonders/service/LoggingService.java:52-54 | warning saves one WARNING entry without trace |
| LoggingService.LogTable.Error | src/main/java/com/reynaud/wonders/service/LoggingService.java:60-70 | error saves one ERROR entry, with the throwable's trace when given |
| LoggingService.LogTable.Critical | src/main/java/com/reynaud/wonders/service/LoggingService.java:76-86 | critical saves one CRITICAL entry, with the throwable's trace when given |
| LoggingService.LogTable.MarkOne | src/main/java/com/reynaud/wonders/service/LoggingService.java:162-165 | one pass of markAsRead: the entry with the id, if any, becomes read and nothing else changes |
| LoggingService.LogTable.MarkAsRead | src/main/java/com/reynaud/wonders/service/LoggingService.java:160-167 | markAsRead marks exactly the listed ids present in the table |
| LoggingService.LogTable.MarkAllAsRead | src/main/java/com/reynaud/wonders/service/LoggingService.java:173-179 | markAllAsRead marks every entry read and leaves no unread entry |
| LoggingService.LogTable.MarkEach | src/main/java/com/reynaud/wonders/service/LoggingService.java:175-178 | the loop over the unread list marks the stored entry of each listed id |
| LoggingService.LogTable.ClearOldLogs | src/main/java/com/reynaud/wonders/service/LoggingService.java:185-191 | clearOldLogs deletes exactly the entries stamped before now minus the days and returns how many it deleted |
| LoggingService.KeptSubset | src/main/java/com/reynaud/wonders/service/LoggingService.java:185-191 | deleting entries keeps the remaining ids unique |
| LoggingService.ClearedExactly | src/main/java/com/reynaud/wonders/service/LoggingService.java:185-191 | after clearing, the table holds exactly the entries not older than the cutoff, each as often as before |
| LogController.ConvertToDTO | src/main/java/com/reynaud/wonders/controller/LogController.java:271-283 | one DTO per entry, in order, each the entry's own fields |
| LogController.DTORoundTrip | src/main/java/com/reynaud/wonders/controller/LogController.java:271-283 | the DTO carries every field of the entry, so the entry can be recovered from it |
| LogController.AnyEntryMatches | src/main/java/com/reynaud/wonders/controller/LogController.java:315-320 | the early-exit loop finds a match iff some split entry, trimmed, equals the name ignoring case |
| LogController.IncludedIff | src/main/java/com/reynaud/wonders/controller/LogController.java:312-334 | an entry is kept iff neither its level nor its non-null source is listed; absent or empty lists exclude nothing, and a null source is judged on its level only |
| LogController.NameShape | src/main/java/com/reynaud/wonders/model/LogLevel.java:4-8 | a level's name is a non-empty run of capital letters |
| LogController.OwnLevelExcluded | src/main/java/com/reynaud/wonders/controller/LogController.java:314-320 | a level list made of a level's name with blanks around it excludes that level |
| LogController.LowerCaseLevelExcluded | src/main/java/com/reynaud/wonders/controller/LogController.java:317 | the level list is compared ignoring case: the lower-case name excludes the level |
| LogController.LowerCaseListed | src/main/java/com/reynaud/wonders/controller/LogController.java:315-317 | a lower-cased name splits into one entry matching the name |
| LogController.SingleEntryMatches | src/main/java/com/reynaud/wonders/controller/LogController.java:315-317 | a list without a comma is a single entry, matched when the trimmed list equals the name ignoring case |
| LogController.DecisionsAgree | src/main/java/com/reynaud/wonders/controller/LogController.java:312-361 | shouldIncludeDTO on an entry's DTO decides as shouldIncludeLog on the entry |
| LogController.KeepSubsequence | src/main/java/com/reynaud/wonders/controller/LogController.java:289-291 | the stream filter keeps its survivors in their order |
| LogController.KeepIdempotent | src/main/java/com/reynaud/wonders/controller/LogController.java:289-291 | filtering twice with the same predicate is filtering once |
| LogController.KeepAll | src/main/java/com/reynaud/wonders/controller/LogController.java:289-291 | a predicate true everywhere keeps everything |
| LogController.KeepConvert | src/main/java/com/reynaud/wonders/controller/LogController.java:303-307 | converting then filtering the DTOs equals filtering then converting, when the predicates agree on an entry and its DTO |
| LogController.FilterOnlyRemoves | src/main/java/com/reynaud/wonders/controller/LogController.java:288-291 | filtering only removes entries, keeps the others in order, holds exactly the included ones, and without lists keeps everything |
| LogController.FilterIdempotent | src/main/java/com/reynaud/wonders/controller/LogController.java:288-291 | filtering twice is filtering once |
| LogController.FilterCommutes | src/main/java/com/reynaud/wonders/controller/LogController.java:288-307 | the page filter and the DTO-list filter thin the same way |
| LogController.ExclusionsKeepPage | src/main/java/com/reynaud/wonders/controller/LogController.java:50-53 | after the optional exclusions the page keeps its number and size and holds the page's surviving entries in order; without lists it is the page itself |
| LogController.FilteredTotal | src/main/java/com/reynaud/wonders/controller/LogController.java:293-297 | the total that PageImpl reports after filtering never grows, still covers the entries kept, is unchanged without lists, and on a short last page drops by exactly the entries filtered out |
| LogController.TotalPagesCover | src/main/java/com/reynaud/wonders/controller/LogController.java:261 | getTotalPages is the number of pages of the page size needed to cover the total |
| LogController.PagedReplyFacts | src/main/java/com/reynaud/wonders/controller/LogController.java:40-56 | getAllLogs fails exactly for a page below 1, and otherwise echoes the page number, reports size 50, sends the page's surviving entries in order, and reports the query's size as total, less the filtered entries of a short last page |
| LogController.ReplyOfPage | src/main/java/com/reynaud/wonders/controller/LogController.java:255-266 | the paged reply of one page: 1-based number, the page's size, the surviving entries in order, and the total after exclusions |
| LogController.ConvertMembers | src/main/java/com/reynaud/wonders/controller/LogController.java:271-283 | an entry's DTO is sent exactly when the entry is among those converted |
| LogController.UnreadReplyFacts | src/main/java/com/reynaud/wonders/controller/LogController.java:108-130 | the unread list reports its own size as totalUnread and totalElements, and sends exactly the unread entries that survive the exclusions, newest first |
| LogController.RecentReplyFacts | src/main/java/com/reynaud/wonders/controller/LogController.java:136-161 | the recent list reports its own size, echoes the minutes asked for, and sends the entries after now minus the minutes that survive the exclusions |
| LogController.UnreadCountMatchesList | src/main/java/com/reynaud/wonders/controller/LogController.java:205-215 | the badge count equals the unread list's size without exclusions, and drops to zero once everything is marked read |
| LogController.MarkedMessageCount | src/main/java/com/reynaud/wonders/controller/LogController.java:167-181 | the number in the mark-read message is the number of ids sent, which is logsMarked, found or not |
| LogController.MarkLogsAsRead | src/main/java/com/reynaud/wonders/controller/LogController.java:167-181 | markLogsAsRead marks the ids present and answers with the number of ids sent |
| LogController.MarkAllAsRead | src/main/java/com/reynaud/wonders/controller/LogController.java:187-199 | markAllAsRead answers with the number of entries that were unread, none of which is unread afterwards |
| LogController.ClearOldLogs | src/main/java/com/reynaud/wonders/controller/LogController.java:221-235 | clearOldLogs deletes exactly the entries older than the days and reports that number with the days in the message |
| CardPlay.Missing | src/main/java/com/reynaud/wonders/manager/CardPlayManager.java:376-381 | the missing map has exactly the cost's concrete resources, each the shortfall max(0, cost - own), zero exactly when own production covers it |
| CardPlay.ClassTotalZero | src/main/java/com/reynaud/wonders/manager/CardPlayManager.java:528-533 | calculateMissingResourceCount of non-negative shortfalls is non-negative, and zero when every shortfall is |
| CardPlay.OptionList | src/main/java/com/reynaud/wonders/model/Ressources.java:53-63 | a pair's options are two base resources |
| CardPlay.AffordPairsIdle | src/main/java/com/reynaud/wonders/manager/CardPlayManager.java:392-409 | once the aggregate base shortfall is covered, the pair loop of canAffordCost changes nothing |
| CardPlay.PayWildcardsReduce | src/main/java/com/reynaud/wonders/manager/CardPlayManager.java:86-102 | the wildcard loops of payCost only lower shortfalls, never below zero, and keep the keys |
| CardPlay.PayOptionsReduce | src/main/java/com/reynaud/wonders/manager/CardPlayManager.java:109-117 | the option loop of payCost only lowers shortfalls, never below zero |
| CardPlay.PayPairsReduce | src/main/java/com/reynaud/wonders/manager/CardPlayManager.java:104-120 | the pair loop of payCost only lowers shortfalls, never below zero |
| CardPlay.PayShortfallBounds | src/main/java/com/reynaud/wonders/manager/CardPlayManager.java:74-120 | after own resources, wildcards and pairs, what payCost still buys is between zero and the first shortfall, for the cost's resources only |
| CardPlay.MergeAllStep | src/main/java/com/reynaud/wonders/manager/CardPlayManager.java:137-140 | one pass of the option merge loop |
| CardPlay.MergeAllGrows | src/main/java/com/reynaud/wonders/manager/CardPlayManager.java:137-140 | merging non-negative pair counts never lowers an availability and raises each option by the count |
| CardPlay.AvailableFoldGrows | src/main/java/com/reynaud/wonders/manager/CardPlayManager.java:131-143 | the neighbour-pair loop never lowers an availability, and every pair counts toward both options |
| CardPlay.AvailableCountsPairs | src/main/java/com/reynaud/wonders/manager/CardPlayManager.java:129-143 | a neighbour offers at least its own stock, and each of its pairs counts in full toward both options |
| CardPlay.GreedyIsCheapest | src/main/java/com/reynaud/wonders/manager/CardPlayManager.java:177-207 | buying from the cheaper side first costs no more than any split the neighbours can supply |
| CardPlay.AffordPurchaseShort | src/main/java/com/reynaud/wonders/manager/CardPlayManager.java:468-472 | a single resource short of what both neighbours offer makes the purchase fail |
| CardPlay.PayPurchaseNonNegative | src/main/java/com/reynaud/wonders/manager/CardPlayManager.java:154-208 | with non-negative prices and stocks, payCost's shares are non-negative |
| CardPlay.BuyOneNonNegative | src/main/java/com/reynaud/wonders/manager/CardPlayManager.java:177-207 | buying one resource never sends a negative amount |
| CardPlay.OwnResourcesSuffice | src/main/java/com/reynaud/wonders/manager/CardPlayManager.java:371-416 | a player whose own production covers the cost's concrete resources can afford it, whatever the neighbours hold |
| CardPlay.ShortSupplyRejects | src/main/java/com/reynaud/wonders/manager/CardPlayManager.java:453-472 | a shortfall left after wildcards and pairs that both neighbours together cannot supply makes the cost unaffordable |
| CardPlay.AddCoins | src/main/java/com/reynaud/wonders/manager/CardPlayManager.java:211 | adding coins keeps the table's size |
| CardPlay.AddCoinsIfPositive | src/main/java/com/reynaud/wonders/manager/CardPlayManager.java:212-219 | a neighbour is paid only a positive share; the table keeps its size |
| CardPlay.Transfer | src/main/java/com/reynaud/wonders/manager/CardPlayManager.java:211-219 | the payment touches the payer and the two neighbours only; the table keeps its size |
| CardPlay.AddCoinsTotal | src/main/java/com/reynaud/wonders/manager/CardPlayManager.java:211 | adding delta coins to one seat adds delta to the table's total |
| CardPlay.AddCoinsIfPositiveTotal | src/main/java/com/reynaud/wonders/manager/CardPlayManager.java:212-219 | a conditional payment adds max(delta, 0) to the total |
| CardPlay.TransferConserves | src/main/java/com/reynaud/wonders/manager/CardPlayManager.java:211-219 | non-negative transfers keep the table's coin total, whoever the seats are |
| CardPlay.PayCostSpec | src/main/java/com/reynaud/wonders/manager/CardPlayManager.java:69-222 | payCost keeps the table's size |
| CardPlay.PayCostOnlyCoins | src/main/java/com/reynaud/wonders/manager/CardPlayManager.java:69-222 | payCost changes nothing but coins |
| CardPlay.TransferOnlyCoins | src/main/java/com/reynaud/wonders/manager/CardPlayManager.java:211-219 | the transfer changes nothing but coins |
| CardPlay.PayCostConservesCoins | src/main/java/com/reynaud/wonders/manager/CardPlayManager.java:69-222 | with non-negative prices and neighbour stocks, payCost moves coins without creating or destroying any |
| CardPlay.NonNegativeAvailable | src/main/java/com/reynaud/wonders/manager/CardPlayManager.java:129-143 | a neighbour's availability is non-negative when its stock is |
| CardPlay.PayCostTransfers | src/main/java/com/reynaud/wonders/manager/CardPlayManager.java:210-219 | with three distinct seats the payer loses exactly the two shares, each neighbour gains its positive share, and nobody else changes |
| CardPlay.ApplyPairsForCheck | src/main/java/com/reynaud/wonders/manager/CardPlayManager.java:392-409 | the pair loop of canAffordCost computes the pair fold over the constants in declaration order |
| CardPlay.UseOptionsForCheck | src/main/java/com/reynaud/wonders/manager/CardPlayManager.java:396-406 | the option loop of canAffordCost, stopping when the pairs or the base shortfall run out |
| CardPlay.NeighbourAvailability | src/main/java/com/reynaud/wonders/manager/CardPlayManager.java:425-439 | the availability loop gives each neighbour's stock plus the pairs of both options |
| CardPlay.MergeOptions | src/main/java/com/reynaud/wonders/manager/CardPlayManager.java:433-436 | the inner merge loop adds both neighbours' pair counts to each option |
| CardPlay.Buy | src/main/java/com/reynaud/wonders/manager/CardPlayManager.java:489-516 | buying one resource takes as much as available from the cheaper side (left on a tie) and the rest from the other |
| CardPlay.PurchaseCost | src/main/java/com/reynaud/wonders/manager/CardPlayManager.java:453-517 | the buying loop of canAffordCost stops at the first unbuyable resource, and otherwise sums the greedy prices |
| CardPlay.BuyResource | src/main/java/com/reynaud/wonders/manager/CardPlayManager.java:455-516 | one pass of the buying loop: short exactly when the neighbours together have too little, else the greedy price |
| CardPlay.CanAffordCost | src/main/java/com/reynaud/wonders/manager/CardPlayManager.java:371-523 | canAffordCost, computed step by step, equals the affordability function: own resources, wildcards, pairs, then neighbours for at most the player's coins |
| CardPlay.CanPlayCard | src/main/java/com/reynaud/wonders/manager/CardPlayManager.java:349-364 | canPlayCard: a coin cost of 0 means the resource check, otherwise exactly coinCost <= coins |
| CardPlay.UseWildcards | src/main/java/com/reynaud/wonders/manager/CardPlayManager.java:86-102 | the wildcard loop of payCost for one class |
| CardPlay.UsePairs | src/main/java/com/reynaud/wonders/manager/CardPlayManager.java:104-120 | the pair loop of payCost |
| CardPlay.UseOptions | src/main/java/com/reynaud/wonders/manager/CardPlayManager.java:109-117 | the option loop of payCost, stopping only when the pairs run out |
| CardPlay.PurchaseShares | src/main/java/com/reynaud/wonders/manager/CardPlayManager.java:150-208 | the buying loop of payCost gives the two shares, and the total is their sum |
| CardPlay.PaymentPlan | src/main/java/com/reynaud/wonders/manager/CardPlayManager.java:69-208 | the coins payCost moves are those of the payment function, their total the sum of the shares |
| CardPlay.MapCardToEffectIdCases | src/main/java/com/reynaud/wonders/manager/CardPlayManager.java:257-338 | mapCardToEffectId gives the effect id of the first case labelled with the card name, and null exactly for a name no case has |
| CardPlay.WithCardEffect | src/main/java/com/reynaud/wonders/manager/CardPlayManager.java:231-250 | applyCardEffect changes only the pending effects, queuing the looked-up effect exactly when both the mapping and the stored effect exist |
| CardPlay.PaidForCard | src/main/java/com/reynaud/wonders/manager/CardPlayManager.java:44-50 | the payment step of playCard keeps the table's size |
| CardPlay.PlayCardSpec | src/main/java/com/reynaud/wonders/manager/CardPlayManager.java:41-60 | a played card keeps the table's size |
| CardPlay.PlayCardMovesCard | src/main/java/com/reynaud/wonders/manager/CardPlayManager.java:51-52 | playing a card from the hand removes one copy from the hand and appends it to the played cards |
| CardPlay.MovesCard | src/main/java/com/reynaud/wonders/manager/CardPlayManager.java:51-53 | the hand and played-cards update of playCard on one player |
| CardPlay.PlayCardWithCoins | src/main/java/com/reynaud/wonders/manager/CardPlayManager.java:44-47 | a card bought with coins takes just the coin cost from the player and leaves the neighbours alone |
| CardPlay.PayCost | src/main/java/com/reynaud/wonders/manager/CardPlayManager.java:69-222 | payCost updates the table as the payment function says |
| CardPlay.PayForCard | src/main/java/com/reynaud/wonders/manager/CardPlayManager.java:44-50 | the payment step of playCard: the coin cost when positive, the resource cost otherwise |
| CardPlay.PlayCard | src/main/java/com/reynaud/wonders/manager/CardPlayManager.java:41-60 | playCard returns canPlayCard's verdict, applies the play when it is true and changes nothing when it is false |
| CardPlay.MoveToPlayed | src/main/java/com/reynaud/wonders/manager/CardPlayManager.java:51-53 | the card step of playCard: from hand to played cards, effect queued |
| CardPlay.DiscardSpec | src/main/java/com/reynaud/wonders/manager/CardPlayManager.java:545-552 | discardCard keeps the table's size |
| CardPlay.DiscardKeepsCards | src/main/java/com/reynaud/wonders/manager/CardPlayManager.java:545-552 | discarding adds exactly 3 coins to the table, and the card moves from the hand to the pile without being lost |
| CardPlay.DiscardCard | src/main/java/com/reynaud/wonders/manager/CardPlayManager.java:545-552 | discardCard removes the card from the hand, appends it to the game's discard pile and gives the player 3 coins |
| EffectExecutor.MapMutablePair | src/main/java/com/reynaud/wonders/service/EffectExecutorService.java:204-213 | mapMutablePair is symmetric and names a pair exactly for two distinct indices 0..3, the pair offering exactly those two base resources |
| EffectExecutor.PriceUpdate | src/main/java/com/reynaud/wonders/service/EffectExecutorService.java:223-242 | side 0 sets the left base price, 1 the right base price, 2 both advanced prices, any other side nothing |
| EffectExecutor.MergeScience | src/main/java/com/reynaud/wonders/service/EffectExecutorService.java:172 | the science merge adds v to one symbol's count and leaves the others alone |
| EffectExecutor.SpecialKeyword | src/main/java/com/reynaud/wonders/service/EffectExecutorService.java:244-283 | exactly the five keywords are handled, and a keyword only ever adds coins |
| EffectExecutor.Fallthrough | src/main/java/com/reynaud/wonders/service/EffectExecutorService.java:181-188 | a part no handler takes is still accepted, changing at most the effect fields |
| EffectExecutor.ApplyIndexed | src/main/java/com/reynaud/wonders/service/EffectExecutorService.java:140-178 | the "index:count" handler changes only the effect fields, and a rejected part changes nothing |
| EffectExecutor.ApplySingle | src/main/java/com/reynaud/wonders/service/EffectExecutorService.java:104-195 | applySingleParameter changes only the effect fields, and a rejected part (an exception) changes nothing |
| EffectExecutor.ApplyParts | src/main/java/com/reynaud/wonders/service/EffectExecutorService.java:77-82 | the part loop keeps the table's size |
| EffectExecutor.ApplyEffectSpec | src/main/java/com/reynaud/wonders/service/EffectExecutorService.java:59-94 | a missing effect or missing or empty parameters are refused with no change |
| EffectExecutor.ApplyPartsOnlySeat | src/main/java/com/reynaud/wonders/service/EffectExecutorService.java:77-82 | effects touch only the acting seat, and only its effect fields |
| EffectExecutor.ApplyPartsAppend | src/main/java/com/reynaud/wonders/service/EffectExecutorService.java:78-82 | running a + b is running a and then, only if all of a was accepted, b: a rejection stops the loop and keeps what was applied |
| EffectExecutor.ApplyPartsFirstRejected | src/main/java/com/reynaud/wonders/service/EffectExecutorService.java:79-81 | a rejected first part leaves the table unchanged |
| EffectExecutor.VictoryPointsParameter | src/main/java/com/reynaud/wonders/service/EffectExecutorService.java:107-112 | "VP:n" adds n to the victory points |
| EffectExecutor.CoinsParameter | src/main/java/com/reynaud/wonders/service/EffectExecutorService.java:115-120 | "COINS:n" adds n to the coins |
| EffectExecutor.MilitaryParameter | src/main/java/com/reynaud/wonders/service/EffectExecutorService.java:123-128 | "MIL:n" adds n to the military points |
| EffectExecutor.NumericParseErrors | src/main/java/com/reynaud/wonders/service/EffectExecutorService.java:107-128 | a number that does not parse makes the VP, COINS and MIL parts fail with no change |
| EffectExecutor.PriceParameter | src/main/java/com/reynaud/wonders/service/EffectExecutorService.java:131-137 | "PRICE:s:p" sets the prices of side s to p |
| EffectExecutor.PriceBranch | src/main/java/com/reynaud/wonders/service/EffectExecutorService.java:131-137 | a part starting with "PRICE:" is handled as a price |
| EffectExecutor.NumberPair | src/main/java/com/reynaud/wonders/service/EffectExecutorService.java:142 | "a:b" of two printed ints splits into those two |
| EffectExecutor.IndexedParameter | src/main/java/com/reynaud/wonders/service/EffectExecutorService.java:156-177 | "k:c" adds c to resource k for 0..8 and to science k - 9 for 9..12 |
| EffectExecutor.IndexedBranch | src/main/java/com/reynaud/wonders/service/EffectExecutorService.java:140-142 | a part starting with a digit and holding a ':' goes to the "index:count" handler |
| EffectExecutor.IndexedPair | src/main/java/com/reynaud/wonders/service/EffectExecutorService.java:156-177 | the "index:count" handler on two numbers with the index in range |
| EffectExecutor.NoColonNoPrefix | src/main/java/com/reynaud/wonders/service/EffectExecutorService.java:107-131 | a part without ':' starts with none of the "NAME:" prefixes |
| EffectExecutor.NoColonFallsThrough | src/main/java/com/reynaud/wonders/service/EffectExecutorService.java:140-188 | a part without ':' reaches the keyword handler |
| EffectExecutor.UnknownParameterAccepted | src/main/java/com/reynaud/wonders/service/EffectExecutorService.java:181-188 | a part without ':' that is no keyword is accepted and changes nothing |
| EffectExecutor.KeywordCoins | src/main/java/com/reynaud/wonders/service/EffectExecutorService.java:244-292 | VINEYARD pays one coin per brown card of the player and both neighbours, LIGHTHOUSE one per own yellow card, HAVEN one per own brown card, CHAMBER_OF_COMMERCE two per own yellow card |
| EffectExecutor.ApplyEffect | src/main/java/com/reynaud/wonders/service/EffectExecutorService.java:59-94 | applyEffect's loop returns and leaves the table as the effect function says |
| EffectExecutor.CanApplyIsNotApply | src/main/java/com/reynaud/wonders/service/EffectExecutorService.java:301-309 | canApplyEffect and applyEffect both refuse a missing effect, but judge different fields: an id-less effect still applies, an effect without parameters does not |
| EffectExecutor.FirstWithId | src/main/java/com/reynaud/wonders/service/EffectExecutorService.java:325-328 | the first pending effect with the id, and none exactly when no pending effect has it |
| EffectExecutor.RemovePendingSpec | src/main/java/com/reynaud/wonders/service/EffectExecutorService.java:320-338 | removePendingEffect returns true iff an effect with the id is pending, removes exactly one such copy and touches nothing else |
| EffectExecutor.RemovePendingEffect | src/main/java/com/reynaud/wonders/service/EffectExecutorService.java:320-338 | the method changes only the acting seat, as the removal function says |
| WonderBuild.CanBuildWith | src/main/java/com/reynaud/wonders/manager/WonderBuildManager.java:187-199 | no wonder throws; a yes needs a stage left under the chosen guard and an affordable next stage cost |
| WonderBuild.CanBuildIsAffordability | src/main/java/com/reynaud/wonders/manager/WonderBuildManager.java:192-198 | below the last stage both guards agree and buildability is affordability of the next stage's cost |
| WonderBuild.LastStageRefusedAsWritten | src/main/java/com/reynaud/wonders/manager/WonderBuildManager.java:192-194 | with one stage left the written guard answers false while the intended guard answers by the cost |
| WonderBuild.LastStageCounterexample | src/main/java/com/reynaud/wonders/manager/WonderBuildManager.java:192-194 | a free last stage: the written guard refuses it, the intended guard allows it |
| WonderBuild.StageKey | src/main/java/com/reynaud/wonders/manager/WonderBuildManager.java:104 | the key starts with the upper-cased wonder name, and is longer than name and face together |
| WonderBuild.StageEffectIdCases | src/main/java/com/reynaud/wonders/manager/WonderBuildManager.java:106-177 | the switch gives the id of the case labelled with the key, and nothing exactly when no case has the key |
| WonderBuild.StageKeyIgnoresCase | src/main/java/com/reynaud/wonders/manager/WonderBuildManager.java:103-104 | wonder names equal up to case give the same key and so the same effect |
| WonderBuild.WithStageEffect | src/main/java/com/reynaud/wonders/manager/WonderBuildManager.java:69-93 | applyWonderStageBenefits only queues the effect of the stage the counter now names, when the key is mapped and the effect exists |
| WonderBuild.BuildSpec | src/main/java/com/reynaud/wonders/manager/WonderBuildManager.java:47-56 | a build keeps the number of players |
| WonderBuild.BuildMovesCard | src/main/java/com/reynaud/wonders/manager/WonderBuildManager.java:48-54 | a build advances the counter by one and moves exactly the card from the hand to the end of the wonder cards |
| WonderBuild.BuildConservesCoins | src/main/java/com/reynaud/wonders/manager/WonderBuildManager.java:48-49 | a build only moves coins to the neighbours, creating and destroying none |
| WonderBuild.CanBuildWonderWithCard | src/main/java/com/reynaud/wonders/manager/WonderBuildManager.java:187-199 | canBuildWonderWithCard, following the corrected guard (see Findings) |
| WonderBuild.BuildWonderWithCard | src/main/java/com/reynaud/wonders/manager/WonderBuildManager.java:44-61 | a build happens exactly when the corrected check allows it (see Findings); a refusal changes nothing |
| CardDistribution.Eligible | src/main/java/com/reynaud/wonders/manager/CardDistributionManager.java:48-53 | exactly the catalogue's cards of the age with minPlayerCount at most the table size, none added |
| CardDistribution.NonViolet | src/main/java/com/reynaud/wonders/manager/CardDistributionManager.java:59-61 | exactly the non-violet cards, none added |
| CardDistribution.Violets | src/main/java/com/reynaud/wonders/manager/CardDistributionManager.java:63-65 | exactly the violet cards |
| CardDistribution.NoVioletsLeft | src/main/java/com/reynaud/wonders/manager/CardDistributionManager.java:59-66 | in Age III the violet selection is taken from the already stripped deck, so it is always empty |
| CardDistribution.UnshuffledContents | src/main/java/com/reynaud/wonders/manager/CardDistributionManager.java:48-73 | before shuffling the deck is every suitable card, and in Age III every non-violet suitable card |
| CardDistribution.DeckContents | src/main/java/com/reynaud/wonders/manager/CardDistributionManager.java:48-83 | a deal uses exactly 7n suitable cards of the age; outside Age III all of them, in Age III no violet card |
| CardDistribution.DeckSizeCheck | src/main/java/com/reynaud/wonders/manager/CardDistributionManager.java:75-81 | outside Age III the deal fails exactly when the suitable cards are not 7n, with IllegalStateException |
| CardDistribution.AgeIIIDeckCheck | src/main/java/com/reynaud/wonders/manager/CardDistributionManager.java:56-81 | in Age III the deal succeeds exactly when the non-violet suitable cards are 7n, and otherwise fails on the subList |
| CardDistribution.HandsTileDeck | src/main/java/com/reynaud/wonders/manager/CardDistributionManager.java:85-91 | seven consecutive cards per player in seat order make up the whole deck |
| CardDistribution.DealPartitionsDeck | src/main/java/com/reynaud/wonders/manager/CardDistributionManager.java:83-91 | each player gets seven cards, only hands change, and every card of the deck is handed out exactly once |
| CardDistribution.DealtTilesDeck | src/main/java/com/reynaud/wonders/manager/CardDistributionManager.java:83-91 | the consecutive 7-card slices of a deck of the right size give each player seven cards, change only the hands and hand out the deck in seat order |
| CardDistribution.DistributeCards | src/main/java/com/reynaud/wonders/manager/CardDistributionManager.java:45-92 | the method deals as the deal function says, or leaves the players unchanged and reports the exception |
| CardDistribution.Target | src/main/java/com/reynaud/wonders/manager/CardDistributionManager.java:119 | the clockwise and counter-clockwise target of a sorted place, with the modulo written out |
| CardDistribution.TargetInverse | src/main/java/com/reynaud/wonders/manager/CardDistributionManager.java:119 | passing one way and then the other returns every place to itself |
| CardDistribution.SortedDistinct | src/main/java/com/reynaud/wonders/manager/CardDistributionManager.java:109-111 | the sorted order names no seat twice |
| CardDistribution.RankOf | src/main/java/com/reynaud/wonders/manager/CardDistributionManager.java:109-111 | the sorted place of the seat at place t is t |
| CardDistribution.RotateSpec | src/main/java/com/reynaud/wonders/manager/CardDistributionManager.java:102-127 | rotation keeps the number of players |
| CardDistribution.RotateAt | src/main/java/com/reynaud/wonders/manager/CardDistributionManager.java:118-121 | the seat at sorted place t receives the hand from the place whose target is t |
| CardDistribution.OrderedHands | src/main/java/com/reynaud/wonders/manager/CardDistributionManager.java:113-115 | one hand per sorted place |
| CardDistribution.RotatedKeepsElements | src/main/java/com/reynaud/wonders/manager/CardDistributionManager.java:118-121 | turning a list by one place keeps its elements |
| CardDistribution.RotatedAt | src/main/java/com/reynaud/wonders/manager/CardDistributionManager.java:119-120 | element t of the turned list comes from the place whose target is t |
| CardDistribution.RotateKeepsOrder | src/main/java/com/reynaud/wonders/manager/CardDistributionManager.java:118-121 | rotation changes hands only, so the position order still holds |
| CardDistribution.RotateTurnsHandAt | src/main/java/com/reynaud/wonders/manager/CardDistributionManager.java:118-121 | the hand at sorted place t afterwards is the turned list's element t |
| CardDistribution.RotateTurnsHands | src/main/java/com/reynaud/wonders/manager/CardDistributionManager.java:118-121 | in sorted order clockwise each player gets the previous player's hand, counter-clockwise the next player's |
| CardDistribution.RotateKeepsHands | src/main/java/com/reynaud/wonders/manager/CardDistributionManager.java:113-121 | no card is gained or lost: the same hands are held afterwards |
| CardDistribution.RotateBackAt | src/main/java/com/reynaud/wonders/manager/CardDistributionManager.java:118-121 | rotating back returns seat k's hand |
| CardDistribution.RotateRoundTrip | src/main/java/com/reynaud/wonders/manager/CardDistributionManager.java:102-127 | rotating one way and then the other restores every player |
| CardDistribution.SourceOf | src/main/java/com/reynaud/wonders/manager/CardDistributionManager.java:119 | the place whose hand a seat receives is a valid place |
| CardDistribution.PassStep | src/main/java/com/reynaud/wonders/manager/CardDistributionManager.java:118-121 | passing one hand to its target keeps the loop invariant |
| CardDistribution.PassedAll | src/main/java/com/reynaud/wonders/manager/CardDistributionManager.java:118-122 | after the loop the players are those the rotation function describes |
| CardDistribution.RotateHands | src/main/java/com/reynaud/wonders/manager/CardDistributionManager.java:102-127 | rotateHands leaves exactly the players the rotation function describes, and with one player or none nothing changes |
| GameStateManager.StartGame | src/main/java/com/reynaud/wonders/manager/GameStateManager.java:42-53 | only a WAITING game starts, becoming STARTING with its start time; any other status throws IllegalStateException and changes nothing |
| GameStateManager.ScoreCoins | src/main/java/com/reynaud/wonders/manager/GameStateManager.java:71-73 | scoring keeps the number of players |
| GameStateManager.BestSeat | src/main/java/com/reynaud/wonders/manager/GameStateManager.java:74 | Stream.max picks the first seat holding the most victory points |
| GameStateManager.ScoreCoinsGains | src/main/java/com/reynaud/wonders/manager/GameStateManager.java:71-73 | each player gains coins/3 points, rounded toward zero, and nothing else changes |
| GameStateManager.FinishGame | src/main/java/com/reynaud/wonders/manager/GameStateManager.java:63-79 | a finished game is FINISHED with its time, scored, and won by the first player with the most points; with no players orElseThrow throws and nothing changes |
| GameStateManager.CancelGame | src/main/java/com/reynaud/wonders/manager/GameStateManager.java:88-94 | any game becomes CANCELLED with its finish time |
| GameStateManager.SetGameToWaiting | src/main/java/com/reynaud/wonders/manager/GameStateManager.java:97-102 | any game becomes WAITING |
| TurnManager.HasPendingBuildFromDiscard | src/main/java/com/reynaud/wonders/manager/TurnManager.java:141-153 | the loop answers true exactly when some player has a pending BUILD_FROM_DISCARD effect |
| TurnManager.Due | src/main/java/com/reynaud/wonders/manager/TurnManager.java:163-165 | the due effects are exactly the pending ones with a chosen timing, each kept with its multiplicity, in order |
| TurnManager.Removed | src/main/java/com/reynaud/wonders/manager/TurnManager.java:169-172 | the removed effects are among the applied ones, no one more often |
| TurnManager.RemovedCounts | src/main/java/com/reynaud/wonders/manager/TurnManager.java:169-172 | as written every applied effect is removed; with the intended test every one except the play-last-cards effect, each as often as it was applied |
| TurnManager.SameButEffectsTransitive | src/main/java/com/reynaud/wonders/manager/TurnManager.java:167-173 | changes to the effect fields compose |
| TurnManager.ApplyEffectOnlySeat | src/main/java/com/reynaud/wonders/manager/TurnManager.java:168 | applyEffect changes only the acting seat, and only its effect fields |
| TurnManager.ApplyOne | src/main/java/com/reynaud/wonders/manager/TurnManager.java:168-172 | one applied effect changes only its seat's effect fields and pending list |
| TurnManager.ApplyList | src/main/java/com/reynaud/wonders/manager/TurnManager.java:167-173 | one seat's pass changes only that seat's effect fields and pending list |
| TurnManager.ApplyFrom | src/main/java/com/reynaud/wonders/manager/TurnManager.java:158-174 | the seats before k are untouched and every seat changes only in its effect fields and pending list |
| TurnManager.ApplyPendingSpec | src/main/java/com/reynaud/wonders/manager/TurnManager.java:155-175 | applyPendingEffects changes every player only in the effect fields and the pending list |
| TurnManager.ApplyListPendingAfter | src/main/java/com/reynaud/wonders/manager/TurnManager.java:167-173 | a seat's pass changes its pending list by the removals |
| TurnManager.PendingAfterRemoves | src/main/java/com/reynaud/wonders/manager/TurnManager.java:171 | removing effects that are all pending leaves the pending multiset minus the removed ones |
| TurnManager.ApplyListPending | src/main/java/com/reynaud/wonders/manager/TurnManager.java:167-173 | a seat's pass leaves its pending effects minus the removed ones |
| TurnManager.ApplyFromPending | src/main/java/com/reynaud/wonders/manager/TurnManager.java:158-174 | every seat ends with its pending effects minus the removed due ones |
| TurnManager.AsWrittenConsumesAllDue | src/main/java/com/reynaud/wonders/manager/TurnManager.java:170-171 | as written (a reference comparison of strings that is always true) every due effect is consumed and the others are kept |
| TurnManager.IntendedKeepsPlayLastCards | src/main/java/com/reynaud/wonders/manager/TurnManager.java:169-172 | with the intended value comparison a due play-last-cards effect stays pending and every other due effect is consumed |
| TurnManager.PlayLastCardsCounterexample | src/main/java/com/reynaud/wonders/manager/TurnManager.java:170 | a player holding the play-last-cards effect loses it at the end of a turn as written, and keeps it with the intended test |
| TurnManager.ApplyAndRemove | src/main/java/com/reynaud/wonders/manager/TurnManager.java:168-172 | one iteration of the inner loop does what ApplyOne says |
| TurnManager.ApplySeatEffects | src/main/java/com/reynaud/wonders/manager/TurnManager.java:167-173 | the inner loop does what ApplyList says |
| TurnManager.ApplyListStep | src/main/java/com/reynaud/wonders/manager/TurnManager.java:167 | applying the list from m on is applying the effect at m, then the rest |
| TurnManager.ApplyPendingEffects | src/main/java/com/reynaud/wonders/manager/TurnManager.java:155-175 | the method does what applyPendingEffects' function says |
| TurnManager.ResetFlags | src/main/java/com/reynaud/wonders/manager/TurnManager.java:60-62 | resetting keeps the number of players |
| TurnManager.FirstSeatWith | src/main/java/com/reynaud/wonders/manager/TurnManager.java:88-92 | the first seat holding the effect, and none exactly when no seat holds it |
| TurnManager.AfterTurnEffects | src/main/java/com/reynaud/wonders/manager/TurnManager.java:60-64 | the flag reset and end-of-turn effects keep the number of players |
| TurnManager.AfterTurnEffectsKeeps | src/main/java/com/reynaud/wonders/manager/TurnManager.java:60-64 | the flag reset and the end-of-turn effects keep positions and hands |
| TurnManager.PositionOrderKept | src/main/java/com/reynaud/wonders/manager/TurnManager.java:124 | a sorted order stays one while positions do not change |
| TurnManager.ApplyPendingKeepsHands | src/main/java/com/reynaud/wonders/manager/TurnManager.java:155-175 | effects keep hands and positions |
| TurnManager.WaitsForAllPlayers | src/main/java/com/reynaud/wonders/manager/TurnManager.java:56 | until every player has played, the end of a turn changes nothing |
| TurnManager.BuildFromDiscardPauses | src/main/java/com/reynaud/wonders/manager/TurnManager.java:66-76 | a pending build from the discard pile puts the game in WAITING with every flag cleared and the hands, age and discard untouched |
| TurnManager.MidAgeRotates | src/main/java/com/reynaud/wonders/manager/TurnManager.java:119-125 | with two or more cards left the hands pass one place, clockwise in Ages I and III and counter-clockwise in Age II, with every flag cleared |
| TurnManager.PlayLastCardsHoldsAge | src/main/java/com/reynaud/wonders/manager/TurnManager.java:78-94 | with cards still held and a play-last-cards effect pending the age does not close |
| TurnManager.CloseAgeDiscards | src/main/java/com/reynaud/wonders/manager/TurnManager.java:99-105 | closing an age moves every player's first card to the discard pile in seat order |
| TurnManager.DiscardFirstCardsOf | src/main/java/com/reynaud/wonders/manager/TurnManager.java:101-103 | the discard loop succeeds on non-empty hands, appends each first card in order, and leaves each hand without it |
| TurnManager.CloseAgeEmptyHandThrows | src/main/java/com/reynaud/wonders/manager/TurnManager.java:101-103 | a player with no card left makes List.remove(0) throw IndexOutOfBoundsException |
| TurnManager.CloseAgeAdvances | src/main/java/com/reynaud/wonders/manager/TurnManager.java:109-118 | closing Ages I and II advances the age and deals seven new cards each; closing Age III ends the ages |
| TurnManager.DiscardLastCards | src/main/java/com/reynaud/wonders/manager/TurnManager.java:101-103 | the discard loop does what the discard function says |
| TurnManager.Restore | src/main/java/com/reynaud/wonders/manager/TurnManager.java:51 | the rollback puts the game back as the transaction found it |
| TurnManager.DiscardAtAgeEnd | src/main/java/com/reynaud/wonders/manager/TurnManager.java:99-105 | the discard part of closing an age as the function says; a failure rolls the game back |
| TurnManager.OpenNextAge | src/main/java/com/reynaud/wonders/manager/TurnManager.java:109-118 | the move to the next age as the function says; a failed deal rolls the game back |
| TurnManager.EndAge | src/main/java/com/reynaud/wonders/manager/TurnManager.java:96-118 | closing the age as the function says; a failure rolls the game back |
| TurnManager.ResetTurnFlags | src/main/java/com/reynaud/wonders/manager/TurnManager.java:60-62 | the loop clears every player's flag and changes nothing else |
| TurnManager.EndTurnEffects | src/main/java/com/reynaud/wonders/manager/TurnManager.java:60-64 | the flag reset and the end-of-turn effects as the function says |
| TurnManager.HandleEndOfTurn | src/main/java/com/reynaud/wonders/manager/TurnManager.java:51-132 | handleEndOfTurn does what the end-of-turn function says, following the intended effect test (see Findings); an exception rolls the game back |
| TurnManager.NextTurn | src/main/java/com/reynaud/wonders/manager/TurnManager.java:78-125 | the last part of handleEndOfTurn as the function says; a failure leaves the game as it was |
| WonderService.ToDTO | src/main/java/com/reynaud/wonders/service/WonderService.java:70-85 | convertToDTO: null stays null and every field is copied |
| WonderService.ToEntity | src/main/java/com/reynaud/wonders/service/WonderService.java:93-108 | convertToEntity: null stays null and every field is copied |
| WonderService.ConversionRoundTrip | src/main/java/com/reynaud/wonders/service/WonderService.java:70-108 | the two conversions are inverse to each other, null included |
| WonderService.FacesOf | src/main/java/com/reynaud/wonders/service/WonderService.java:125-126 | the group of a name is exactly the catalogue's boards of that name, and it is non-empty for a name that occurs |
| WonderService.AssignedWonder | src/main/java/com/reynaud/wonders/service/WonderService.java:133-136 | player i gets a catalogue board named by the (i mod #names)-th shuffled name |
| WonderService.DistinctPicks | src/main/java/com/reynaud/wonders/service/WonderService.java:132-136 | two of the first #names players never get boards of the same name |
| WonderService.AssignedNamesDistinct | src/main/java/com/reynaud/wonders/service/WonderService.java:115-144 | with no more players than board names no two players get boards of the same name |
| WonderService.AssignWonders | src/main/java/com/reynaud/wonders/service/WonderService.java:115-144 | handleGameCreation does what the assignment function says; no players means nothing changes, and no boards makes i % 0 throw ArithmeticException with nothing changed |
| WonderService.GiveBoards | src/main/java/com/reynaud/wonders/service/WonderService.java:132-143 | the loop gives player i its board and stage 0 and nothing else |
| GameInit.LeftPosition | src/main/java/com/reynaud/wonders/manager/GameInitManager.java:121 | (p - 1 + n) % n is the seat before p, wrapping from 0 to n - 1 |
| GameInit.RightPosition | src/main/java/com/reynaud/wonders/manager/GameInitManager.java:126 | (p + 1) % n is the seat after p, wrapping from n - 1 to 0 |
| GameInit.NeighbourPositionsInverse | src/main/java/com/reynaud/wonders/manager/GameInitManager.java:120-127 | the right neighbour's left neighbour is the player itself and the other way round, both on the table |
| GameInit.KnownUsers | src/main/java/com/reynaud/wonders/manager/GameInitManager.java:69-72 | the users found are exactly the known requested ones, in request order, never more than requested |
| GameInit.Seats | src/main/java/com/reynaud/wonders/manager/GameInitManager.java:77 | one player state per seated user |
| GameInit.SeatsConsecutive | src/main/java/com/reynaud/wonders/manager/GameInitManager.java:68-80 | the seated users sit at positions 0, 1, 2, ... without gaps, each seat holding its user |
| GameInit.SeatPlayers | src/main/java/com/reynaud/wonders/manager/GameInitManager.java:68-80 | the loop adds every known user and a seat at the next position; addUserToGame on a started game throws IllegalStateException (src/main/java/com/reynaud/wonders/service/GameService.java:85-92) and nothing changes |
| GameInit.SeatAt | src/main/java/com/reynaud/wonders/service/PlayerStateService.java:61-63 | the lookup by position finds a seat holding that position, and none exactly when no seat holds it |
| GameInit.LinkNeighbours | src/main/java/com/reynaud/wonders/manager/GameInitManager.java:114-135 | linking keeps the number of seats |
| GameInit.SetupNeighbours | src/main/java/com/reynaud/wonders/manager/GameInitManager.java:114-135 | setupNeighborRelationships links every seat as the linking function says |
| GameInit.NeighboursAroundTable | src/main/java/com/reynaud/wonders/manager/GameInitManager.java:114-135 | with seat k at position k every seat's left and right neighbours are the seats before and after it, and the links are mutual |
| GameInit.SeatAtInOrder | src/main/java/com/reynaud/wonders/manager/GameInitManager.java:122 | with seat k at position k the lookup of position p finds seat p |
| GameInit.LinkedSeats | src/main/java/com/reynaud/wonders/manager/GameInitManager.java:68-88 | freshly created seats are linked around the table in position order |
| GameInit.AssignKeepsSeats | src/main/java/com/reynaud/wonders/manager/GameInitManager.java:92 | the wonder assignment keeps positions, users and neighbours |
| GameInit.DealKeepsPrepared | src/main/java/com/reynaud/wonders/manager/GameInitManager.java:96 | the deal keeps seats, neighbours and boards |
| GameInit.AssignPrepares | src/main/java/com/reynaud/wonders/manager/GameInitManager.java:68-92 | seating, linking and assigning a fresh game leaves a prepared table |
| GameInit.PrepareTable | src/main/java/com/reynaud/wonders/manager/GameInitManager.java:62-92 | the seating, links and boards of startGame; the only exception is i % 0 when there are players but no boards |
| GameInit.DealPrepared | src/main/java/com/reynaud/wonders/manager/GameInitManager.java:96 | the first deal keeps the table prepared and gives every seat seven cards |
| GameInit.StartNewGame | src/main/java/com/reynaud/wonders/manager/GameInitManager.java:58-105 | a started game is STARTING in Age I with its start time, its known users seated in order, linked, with boards and seven cards each |
| CardActionService.CoveredTotalBounds | src/main/java/com/reynaud/wonders/service/CardActionService.java:93-113 | the neighbours strike off at most a class's shortfall: all of it when every shortfall is coverable, none when none is |
| CardActionService.OwnResourcesSuffice | src/main/java/com/reynaud/wonders/service/CardActionService.java:66-83 | a player whose own production and wildcards cover the cost can afford it, with or without neighbours |
| CardActionService.MissingNeighbourThrows | src/main/java/com/reynaud/wonders/service/CardActionService.java:87-90 | a shortfall left after the wildcards dereferences both neighbours, so a missing one throws NullPointerException |
| CardActionService.NeighboursCoverAll | src/main/java/com/reynaud/wonders/service/CardActionService.java:93-116 | when the neighbours together hold every single shortfall the cost is affordable, whatever the player's coins |
| CardActionService.UncoverableRefused | src/main/java/com/reynaud/wonders/service/CardActionService.java:93-116 | when a base shortfall survives the wildcards and the neighbours can cover no base shortfall, the cost is refused |
| CardActionService.CoinsIgnored | src/main/java/com/reynaud/wonders/service/CardActionService.java:61-117 | the check never reads coins or prices: changing anyone's coins leaves the answer as is |
| CardActionService.StrikeCovered | src/main/java/com/reynaud/wonders/service/CardActionService.java:93-113 | the loop strikes off exactly the coverable shortfalls of each class |
| CardActionService.CanAffordCost | src/main/java/com/reynaud/wonders/service/CardActionService.java:61-117 | canAffordCost returns what the affordability function says |
| CardActionService.CanPlaySpec | src/main/java/com/reynaud/wonders/service/CardActionService.java:53-59 | a card with a coin cost needs only that many coins; one without needs its resource cost |
| CardActionService.PlayKeepsCards | src/main/java/com/reynaud/wonders/service/CardActionService.java:43-51 | playing a card from the hand keeps the player's cards and everyone's coins and touches no other seat: nothing is paid |
| CardActionService.PlayCard | src/main/java/com/reynaud/wonders/service/CardActionService.java:42-51 | the card moves to the end of the played cards exactly when canPlayCard allows it; otherwise nothing changes |
| CardActionService.CanBuildWith | src/main/java/com/reynaud/wonders/service/CardActionService.java:151-166 | no wonder throws; a yes needs a stage left under the chosen guard and an affordable stage cost |
| CardActionService.LastStageRefusedAsWritten | src/main/java/com/reynaud/wonders/service/CardActionService.java:155-157 | as written, with the counter at numberOfStages - 1 the last stage is refused whatever the cost |
| CardActionService.LastStageBuildable | src/main/java/com/reynaud/wonders/service/CardActionService.java:155-165 | corrected, a player whose own resources cover the last stage's cost can build it |
| CardActionService.BuildKeepsCards | src/main/java/com/reynaud/wonders/service/CardActionService.java:139-149 | a build advances the counter by one, keeps the player's cards and coins and touches no other seat |
| CardActionService.BuildWonderWithCard | src/main/java/com/reynaud/wonders/service/CardActionService.java:138-149 | buildWonderWithCard with the corrected guard (see Findings): the card goes under the wonder exactly when the check allows it |
| CardActionService.CardsOfAge | src/main/java/com/reynaud/wonders/service/CardActionService.java:273 | exactly the catalogue's cards of the age |
| CardActionService.Suitable | src/main/java/com/reynaud/wonders/service/CardActionService.java:275-277 | exactly the cards of the age with minPlayerCount at most the table size |
| CardActionService.MulMonotone | src/main/java/com/reynaud/wonders/service/CardActionService.java:294 | the slice bounds grow with the player index |
| CardActionService.SliceInRange | src/main/java/com/reynaud/wonders/service/CardActionService.java:294 | the k-th slice lies within the first n * h cards |
| CardActionService.Slice | src/main/java/com/reynaud/wonders/service/CardActionService.java:294 | the k-th slice has h cards, taken at k * h |
| CardActionService.DealSpec | src/main/java/com/reynaud/wonders/service/CardActionService.java:271-298 | a deal keeps the number of players |
| CardActionService.SliceShift | src/main/java/com/reynaud/wonders/service/CardActionService.java:294 | dropping the first slice shifts the others down by one place |
| CardActionService.SlicesTile | src/main/java/com/reynaud/wonders/service/CardActionService.java:293-297 | consecutive slices, one per player, make up the first n * h cards |
| CardActionService.TakeSplit | src/main/java/com/reynaud/wonders/service/CardActionService.java:293-297 | the first n * h cards are the first slice followed by the rest |
| CardActionService.Dealt | src/main/java/com/reynaud/wonders/service/CardActionService.java:293-297 | every player keeps everything but the hand |
| CardActionService.DealtTilesDeck | src/main/java/com/reynaud/wonders/service/CardActionService.java:293-297 | the dealt hands in seat order are the first n * h cards of the deck |
| CardActionService.DealSlicesDeck | src/main/java/com/reynaud/wonders/service/CardActionService.java:271-298 | each player gets (cards of the age)/n cards and nothing else changes, the hands being the first slices of the shuffled deck |
| CardActionService.DealFailures | src/main/java/com/reynaud/wonders/service/CardActionService.java:271-298 | no players makes the division throw ArithmeticException; fewer than n + 2 suitable guilds makes subList throw; outside Age III the deal fails exactly when the slices overrun the suitable cards |
| CardActionService.ShuffledCount | src/main/java/com/reynaud/wonders/service/CardActionService.java:283-292 | a shuffle keeps every card's count |
| CardActionService.DrawnGuilds | src/main/java/com/reynaud/wonders/service/CardActionService.java:280-284 | the drawn guilds are n + 2 suitable violet cards |
| CardActionService.GuildsDealtTwice | src/main/java/com/reynaud/wonders/service/CardActionService.java:286-289 | as written the deck keeps every suitable violet card and adds the drawn guilds again, so each drawn guild is in the deck twice |
| CardActionService.GuildsDealtOnce | src/main/java/com/reynaud/wonders/service/CardActionService.java:279-290 | corrected, the Age III deck holds the suitable non-violet cards and, of the violet cards, exactly the drawn guilds |
| CardActionService.DealAgeCards | src/main/java/com/reynaud/wonders/service/CardActionService.java:190-193 | handleGameCreation deals with the corrected Age III deck (see Findings), or leaves the players unchanged and reports the exception |
| CardActionService.OpenNextAge | src/main/java/com/reynaud/wonders/service/CardActionService.java:219-226 | the age advances; after Age III nothing is dealt; the status and discard pile are kept |
| CardActionService.WaitsForAllPlayers | src/main/java/com/reynaud/wonders/service/CardActionService.java:208 | until every player has played, the turn changes nothing |
| CardActionService.LastCardThrowsAsWritten | src/main/java/com/reynaud/wonders/service/CardActionService.java:214-218 | as written the acting player's hand is emptied once per player, so at a table of two or more the last card throws IndexOutOfBoundsException |
| CardActionService.LastCardDiscards | src/main/java/com/reynaud/wonders/service/CardActionService.java:214-226 | corrected, every player's first card goes to the discard pile in seat order and the age advances |
| CardActionService.MidAgeAdvancesAndRotates | src/main/java/com/reynaud/wonders/service/CardActionService.java:227-233 | with two or more cards the age advances and the hands pass one place in the new age's direction, with every flag cleared |
| CardActionService.EmptyHandOnlyResets | src/main/java/com/reynaud/wonders/service/CardActionService.java:209-212 | with an empty hand closing the turn only clears the flags |
| CardActionService.HandleEndOfTurn | src/main/java/com/reynaud/wonders/service/CardActionService.java:204-239 | handleEndOfTurn with the corrected discard (see Findings) as the function says; an exception rolls the game back |
| GameService.LobbyGuard | src/main/java/com/reynaud/wonders/service/GameService.java:86-93 | the lobby guard passes exactly for an existing game in WAITING |
| GameService.CreateGame | src/main/java/com/reynaud/wonders/service/GameService.java:34-47 | a fresh game in WAITING with the given player count and nothing else |
| GameService.AddUserToGame | src/main/java/com/reynaud/wonders/service/GameService.java:84-97 | a missing game throws IllegalArgumentException, a started one IllegalStateException; otherwise the user is appended |
| GameService.RemoveUserFromGame | src/main/java/com/reynaud/wonders/service/GameService.java:99-108 | only a missing game is refused; the first equal user leaves whatever the status |
| GameService.JoinThenLeave | src/main/java/com/reynaud/wonders/service/GameService.java:95-106 | a user that joins and leaves again leaves the user list as it was |
| GameService.StartGame | src/main/java/com/reynaud/wonders/service/GameService.java:110-131 | startGame passes the lobby guard, sets STARTING and the start time, and seats every user at positions 0, 1, 2, ...; a refusal changes nothing |
| GameService.StartedSeatsInOrder | src/main/java/com/reynaud/wonders/service/GameService.java:125-128 | the seats startGame creates sit at consecutive positions, each holding its user |
| GameService.FinishGame | src/main/java/com/reynaud/wonders/service/GameService.java:133-145 | FINISHED at the given time with the given winner, whatever the status; only a missing game is refused |
| GameService.CancelGame | src/main/java/com/reynaud/wonders/service/GameService.java:147-158 | CANCELLED at the given time, whatever the status; only a missing game is refused |
| GameService.DealKeepsPrepared | src/main/java/com/reynaud/wonders/service/GameService.java:216 | the Age I deal keeps the table prepared and gives every seat the same share of the Age I cards from the shuffled deck |
| GameService.SetupGameWithPlayers | src/main/java/com/reynaud/wonders/service/GameService.java:169-219 | a game in Age I still in the lobby, its known users seated in order and linked, boards assigned and the cards dealt (with the corrected Age III deck, see Findings); no known user makes the division throw |
| GameService.UserIds | src/main/java/com/reynaud/wonders/service/GameService.java:229-231 | the user ids in order |
| GameService.Usernames | src/main/java/com/reynaud/wonders/service/GameService.java:232-234 | the user names in order |
| GameService.CardIds | src/main/java/com/reynaud/wonders/service/GameService.java:245-247 | the card ids in order |
| GameService.ConvertToDTOFields | src/main/java/com/reynaud/wonders/service/GameService.java:222-264 | null stays null; users keep their order with ids and names paired; the two winner fields are set together, only for a game with a known winner |
| GameController.NamedSeat | src/main/java/com/reynaud/wonders/controller/GameController.java:141-148 | seat k holds its user at position k with an empty hand and the name of the board picked under the k-th shuffled name |
| GameController.NamedSeats | src/main/java/com/reynaud/wonders/controller/GameController.java:134-154 | one named seat per known user |
| GameController.NamedSeatsAppend | src/main/java/com/reynaud/wonders/controller/GameController.java:134-154 | seating one more user appends its named seat |
| GameController.HandAtRun | src/main/java/com/reynaud/wonders/controller/GameController.java:158-162 | a seat keeps its seven cards of the deck when the deck holds them all, and nothing otherwise |
| GameController.DealtSevens | src/main/java/com/reynaud/wonders/controller/GameController.java:157-163 | dealing keeps the number of seats and changes nothing of a seat but its hand |
| GameController.KnownUsersPrefix | src/main/java/com/reynaud/wonders/controller/GameController.java:134-136 | the users known among a prefix of the ids are a prefix of those known among all |
| GameController.KnownUsersStep | src/main/java/com/reynaud/wonders/controller/GameController.java:134-136 | one more id adds its user, if there is one, at the end |
| GameController.FirstKnownUser | src/main/java/com/reynaud/wonders/controller/GameController.java:134-136 | the first id naming a user gives the first seated user |
| GameController.SeatAndName | src/main/java/com/reynaud/wonders/controller/GameController.java:135-152 | a known user joins, gets the next position and its board name and face |
| GameController.SeatUnnamed | src/main/java/com/reynaud/wonders/controller/GameController.java:138-141 | the first known user joins an empty game and gets seat 0 before the name lookup |
| GameController.SeatKnownUsers | src/main/java/com/reynaud/wonders/controller/GameController.java:131-154 | position and wonderIndex advance only for known users, so seats are consecutive from 0; with no board names the first lookup throws |
| GameController.DealSevens | src/main/java/com/reynaud/wonders/controller/GameController.java:157-163 | each seat gets its own seven consecutive cards of the deck, in deck order, and is saved; running past the deck throws IndexOutOfBoundsException, and only then, and the seat being dealt and every later seat keep the hand they had |
| GameController.ShortDealKept | src/main/java/com/reynaud/wonders/controller/GameController.java:158-162 | when the deck runs out during a seat's run, the seats before it hold their runs and that seat and the later ones keep their saved hands |
| GameController.SubmitCreateGame | src/main/java/com/reynaud/wonders/controller/GameController.java:91-174 | no login redirects to /login; a missing list or fewer than 3 or more than 7 ids shows the form with the error and creates nothing; otherwise the game reaches what the creation function says, where a short deck leaves only the seats dealt in full with cards |
| GameController.SeatAndDeal | src/main/java/com/reynaud/wonders/controller/GameController.java:129-165 | the seating and dealing reach the view, users and seats the creation function says: the seats dealt seven cards before the deck ran out hold them and no other seat holds any |
| GameController.RunsTile | src/main/java/com/reynaud/wonders/controller/GameController.java:157-161 | consecutive runs of seven cards make up the part of the deck they cover |
| GameController.HandsAreRuns | src/main/java/com/reynaud/wonders/controller/GameController.java:158-161 | hands holding consecutive runs of the deck are those runs, seat after seat |
| GameController.CreatedHands | src/main/java/com/reynaud/wonders/controller/GameController.java:134-163 | unless the lookup throws, the seats are the named seats with their runs of the deck |
| GameController.DealtRuns | src/main/java/com/reynaud/wonders/controller/GameController.java:157-161 | dealing to empty hands hands out the deck from its start, run by run |
| GameController.FullDeal | src/main/java/com/reynaud/wonders/controller/GameController.java:157-163 | a deck with seven cards for every seat gives each seat exactly seven, and the hands are the first seven per seat of the deck |
| GameController.CreatedGameSeatsAndDeals | src/main/java/com/reynaud/wonders/controller/GameController.java:129-165 | a created game seats its known users at positions 0, 1, 2, ..., names the k-th one's board after shuffled name k mod #names (distinct while there are enough names), and deals the first 7n cards of the deck, seven each, each once |
| GameController.DealtCardsSuitable | src/main/java/com/reynaud/wonders/controller/GameController.java:123-127 | every card dealt is an Age I card for at most the requested number of players, none more often than stored |
| GameController.DrawnFrom | src/main/java/com/reynaud/wonders/controller/GameController.java:127 | cards taken from a permutation of a list are taken from the list |
| GameController.DealtFromDeck | src/main/java/com/reynaud/wonders/controller/GameController.java:157-161 | no card is dealt more often than the deck holds it |
| GameController.PrefixMultiset | src/main/java/com/reynaud/wonders/controller/GameController.java:160 | a prefix holds no card more often than the whole |
| GameController.ShortDeckFails | src/main/java/com/reynaud/wonders/controller/GameController.java:158-167 | a deck too short for seven cards per seat stops the creation with the list access error; a seat holds seven cards exactly when the deck held all of its run, every other seat holds none, and together the hands are the complete runs of the deck in order |
| GameController.DealtHandSizes | src/main/java/com/reynaud/wonders/controller/GameController.java:157-162 | dealing to empty hands gives a seat seven cards exactly when the deck holds its whole run, and none otherwise |
| GameController.NoNamesFails | src/main/java/com/reynaud/wonders/controller/GameController.java:144 | without board names the first known user is seated without a name and i % 0 throws; with no known user the game is created empty |
| WonderDecider.SeatOf | src/main/java/com/reynaud/wonders/controller/WonderDeciderController.java:58 | the caller's seat holds the caller's id, and there is none exactly when no seat does |
| WonderDecider.WonderById | src/main/java/com/reynaud/wonders/controller/WonderDeciderController.java:66 | the catalogue entry with the id, none exactly when no entry has it |
| WonderDecider.Caller | src/main/java/com/reynaud/wonders/controller/WonderDeciderController.java:54-57 | a caller exists exactly when the authentication names an existing user |
| WonderDecider.ChooseSideOutcomes | src/main/java/com/reynaud/wonders/controller/WonderDeciderController.java:46-79 | no login or an unknown user goes to /login, no seat goes home, a refused face goes back to the choice; only success changes a state, that of the caller's seat, which gets the face, its name, stage 0 and the face's starting resources |
| WonderDecider.ChooseSideOnce | src/main/java/com/reynaud/wonders/controller/WonderDeciderController.java:62-64 | a side once chosen is final: a second submission of any face changes nothing and goes to play |
| WonderDecider.StatesOf | src/main/java/com/reynaud/wonders/controller/WonderDeciderController.java:58 | no game with the id means no player states |
| WonderDecider.ChooseWonderSide | src/main/java/com/reynaud/wonders/controller/WonderDeciderController.java:46-79 | the method returns the redirect and leaves the states the choice function says, keeping the number of seats |
| WonderDecider.OfferedFaceAccepted | src/main/java/com/reynaud/wonders/controller/WonderDeciderController.java:81-102 | every face the page offers, submitted by the same user, is accepted when catalogue ids are unique, and the seat then holds that face |
| WonderDecider.UniqueIdFound | src/main/java/com/reynaud/wonders/controller/WonderDeciderController.java:66 | with unique ids the lookup by an entry's id finds that entry |
| CardService.GroupMembers | src/main/java/com/reynaud/wonders/service/CardService.java:29-35 | a group holds only cards of its age and type, each as often as the catalogue does |
| CardService.AgesAscending | src/main/java/com/reynaud/wonders/service/CardService.java:38-44 | ages come out in strictly ascending ordinal order |
| CardService.AgeKeys | src/main/java/com/reynaud/wonders/service/CardService.java:28-44 | the ages with an entry are exactly the ages of the catalogue's cards |
| CardService.PresentAgesExact | src/main/java/com/reynaud/wonders/service/CardService.java:28-30 | an age is listed exactly when some card has it |
| CardService.TypeGroupsExact | src/main/java/com/reynaud/wonders/service/CardService.java:31-34 | within an age every type group holds only its type, and every card of the age is in its type's group as often as in the catalogue |
| CardService.EachCardOnceInItsGroup | src/main/java/com/reynaud/wonders/service/CardService.java:28-35 | every card is in the group of its own age and type, as often as in the catalogue, and groups hold only their own cards |
| CardService.NoEmptyGroups | src/main/java/com/reynaud/wonders/service/CardService.java:28-35 | no empty age entry and no empty type group |
| CardService.GroupStable | src/main/java/com/reynaud/wonders/service/CardService.java:31-34 | grouping keeps the catalogue's relative order: the group of a concatenation is the concatenation of the groups |
| GameStateView.CardBackRoundTrip | src/main/java/com/reynaud/wonders/controller/GameStateApiController.java:650-652 | the back file of an age reads back as that age and no other |
| GameStateView.CardBacksFollowWonderCards | src/main/java/com/reynaud/wonders/controller/GameStateApiController.java:650-653 | one back per wonder card, in the same order, each naming that card's age |
| GameStateView.AvailableActionsIff | src/main/java/com/reynaud/wonders/controller/GameStateApiController.java:655-663 | play, build and discard are offered exactly when the player has not played this turn, build_from_discard exactly when a BUILD_FROM_DISCARD effect is pending, nothing else and nothing twice |
| GameStateView.UserName | src/main/java/com/reynaud/wonders/controller/GameStateApiController.java:730 | the name of a user with the id, none exactly when no user has it |
| GameStateView.OthersMembers | src/main/java/com/reynaud/wonders/controller/GameStateApiController.java:725-727 | the others are exactly the states not held by the requester |
| GameStateView.EntriesPointwise | src/main/java/com/reynaud/wonders/controller/GameStateApiController.java:725-736 | the entries, when there are, are one per state and in order |
| GameStateView.AppendPointwise | src/main/java/com/reynaud/wonders/controller/GameStateApiController.java:735 | appending one entry keeps the entries pointwise |
| GameStateView.OthersIsFilterThenMap | src/main/java/com/reynaud/wonders/controller/GameStateApiController.java:724-738 | the players loop drops the requester's states and builds an entry for each of the others |
| GameStateView.RequesterExcluded | src/main/java/com/reynaud/wonders/controller/GameStateApiController.java:724-738 | one entry per state not held by the requester, in list order: the requester never appears, every other player does |
| GameStateView.OthersThrowSticks | src/main/java/com/reynaud/wonders/controller/GameStateApiController.java:724-738 | once the loop has thrown, the rest of the list does not matter |
| GameStateView.OtherPlayers | src/main/java/com/reynaud/wonders/controller/GameStateApiController.java:724-738 | the players loop with the intended neighbour test and public states (the corrected variant, see Findings), as the list function says |
| GameStateView.HandShownAsWritten | src/main/java/com/reynaud/wonders/controller/GameStateApiController.java:731-734 | as written the entry's state still carries the hand and actions (the removals act on the outer map); the intended public state carries neither |
| GameStateView.NeighbourCounterexample | src/main/java/com/reynaud/wonders/controller/GameStateApiController.java:732 | as written a user id is compared with player-state ids, so when no such ids coincide the left neighbour is never reported; the intended test reports it |
| GameStateView.NeighbourIntended | src/main/java/com/reynaud/wonders/controller/GameStateApiController.java:732 | with the intended test, and unique user ids, exactly the seats at the requester's left and right are reported as neighbours |
| GameStateView.PlayerGameStateShape | src/main/java/com/reynaud/wonders/controller/GameStateApiController.java:687-741 | the reply is 401 exactly when there is no login or the user is unknown; a state reply carries the caller's full state, the whole discard pile in order and entries for the others (public, with the intended neighbour test) |
| GameStateView.GetPlayerGameState | src/main/java/com/reynaud/wonders/controller/GameStateApiController.java:687-741 | getPlayerGameState, following the corrected entries: no hand or actions of other players and the intended neighbour test (see Findings), as the reply function says |
| GameStateApi.TableAt | src/main/java/com/reynaud/wonders/controller/GameStateApiController.java:396-402 | a table exactly when the game with the id exists |
| GameStateApi.PayCostKeepsPositions | src/main/java/com/reynaud/wonders/manager/CardPlayManager.java:69-222 | paying changes no position |
| GameStateApi.PlayKeepsPositions | src/main/java/com/reynaud/wonders/manager/CardPlayManager.java:41-60 | playing changes no position |
| GameStateApi.BuildKeepsPositions | src/main/java/com/reynaud/wonders/manager/WonderBuildManager.java:44-61 | building changes no position |
| GameStateApi.OrderKept | src/main/java/com/reynaud/wonders/manager/CardDistributionManager.java:109-111 | a sorted order of the seats stays one while no position changes |
| GameStateApi.CardByImage | src/main/java/com/reynaud/wonders/controller/GameStateApiController.java:405-408 | the first card of the hand with the image; cardImage.equals on a null image throws exactly when the hand has a card; none exactly when no card has the image |
| GameStateApi.PerformKeepsPositions | src/main/java/com/reynaud/wonders/controller/GameStateApiController.java:428-449 | a refused action leaves the table as it was, and every action keeps positions |
| GameStateApi.AdmitCardAction | src/main/java/com/reynaud/wonders/controller/GameStateApiController.java:361-423 | an admitted request has a login, an action among play/build/discard, a user with a seat, a card of that hand with the image and a player who has not played; any other action is 400 "Invalid action type"; every other answer is a failure; that a success comes only from an admitted request is stated by GameStateApi.CardActionOutcomes |
| GameStateApi.ActSpecByOutcome | src/main/java/com/reynaud/wonders/controller/GameStateApiController.java:428-459 | an exception or a refused action leaves the table; a success goes on to the end of the turn with the seat marked |
| GameStateApi.ActOutcomes | src/main/java/com/reynaud/wonders/controller/GameStateApiController.java:428-463 | a reply that is not a success leaves the table; a success is the action followed by the end of the turn with the seat marked; a discard never fails |
| GameStateApi.CardActionOutcomes | src/main/java/com/reynaud/wonders/controller/GameStateApiController.java:357-464 | every non-success reply leaves the table as it was; a success comes only from an admitted request whose action succeeded |
| GameStateApi.PerformAction | src/main/java/com/reynaud/wonders/controller/GameStateApiController.java:428-449 | the action part on the game does what the action function says, and an exception changes nothing |
| GameStateApi.FinishTurn | src/main/java/com/reynaud/wonders/controller/GameStateApiController.java:451-456 | the seat is marked as played and handleEndOfTurn runs, as the function says |
| GameStateApi.Act | src/main/java/com/reynaud/wonders/controller/GameStateApiController.java:428-463 | the admitted part of cardAction on the game, as the function says |
| GameStateApi.CardAction | src/main/java/com/reynaud/wonders/controller/GameStateApiController.java:357-464 | cardAction returns the reply and leaves the table the function says; the build follows the corrected wonder guard and the end of the turn the intended effect test (see Findings), and the dead Olympia branch is left out |
| GameStateApi.CardIndexById | src/main/java/com/reynaud/wonders/controller/GameStateApiController.java:574-577 | the first card of the pile with the id, and none exactly when no card has it |
| GameStateApi.FreePlaySpec | src/main/java/com/reynaud/wonders/controller/GameStateApiController.java:595 | a free play keeps the number of players |
| GameStateApi.DropEffectExact | src/main/java/com/reynaud/wonders/controller/GameStateApiController.java:612 | removeIf keeps exactly the effects of other ids, as often as they were there |
| GameStateApi.RemoveAtMultiset | src/main/java/com/reynaud/wonders/controller/GameStateApiController.java:586-605 | taking the card out of the pile and adding it back keeps the pile's cards |
| GameStateApi.AdmitSelect | src/main/java/com/reynaud/wonders/controller/GameStateApiController.java:547-583 | an admitted request has a login, an action play or build, a game, a user with a seat and a card of the pile with the id; any other action is 400; a card missing from the pile is 400 "Card not found in discard pile"; no answer is a success; what an admitted request does to the pile when the action is refused is stated by GameStateApi.TakeRefused |
| GameStateApi.TakeActionKeepsPositions | src/main/java/com/reynaud/wonders/controller/GameStateApiController.java:593-601 | the actions on the taken card keep positions and the pile |
| GameStateApi.TakeRefused | src/main/java/com/reynaud/wonders/controller/GameStateApiController.java:603-609 | a refused build puts the card back at the end of the pile, which keeps its cards; a free play is never refused |
| GameStateApi.FinishOutcome | src/main/java/com/reynaud/wonders/controller/GameStateApiController.java:611-626 | after a success the seat has no BUILD_FROM_DISCARD effect, the game is PLAYING and the table is the end of the turn from there, with the success message |
| GameStateApi.TakeSucceeded | src/main/java/com/reynaud/wonders/controller/GameStateApiController.java:585-626 | a card taken successfully has left the pile, no BUILD_FROM_DISCARD effect is left, the game is playing again and the turn has ended |
| GameStateApi.TakeFromDiscard | src/main/java/com/reynaud/wonders/controller/GameStateApiController.java:593-601 | the action on the taken card, as the function says |
| GameStateApi.Take | src/main/java/com/reynaud/wonders/controller/GameStateApiController.java:585-626 | the admitted part of selectDiscardCard on the game, as the function says |
| GameStateApi.Finish | src/main/java/com/reynaud/wonders/controller/GameStateApiController.java:611-626 | the end of a successful take on the game, as the function says |
| GameStateApi.SelectDiscardCard | src/main/java/com/reynaud/wonders/controller/GameStateApiController.java:541-627 | selectDiscardCard returns the reply and leaves the table the function says; the build follows the corrected wonder guard and the end of the turn the intended effect test (see Findings) |
| HandSelection.SendCardActionFallback | src/main/resources/static/app.js:301-323 | a thrown request gives {success: false}; an answer is passed on as parsed; a success always comes from an answer that says so |
| HandSelection.ErrorTextNeverEmpty | src/main/resources/static/js/card-handler.js:86-90 | the error shown (here for playCard; buildWonder and discardCard at :103-107 and :120-124 are alike) is never empty: the server's message when it has one, the action's default otherwise |
| HandSelection.SpliceRemovesOne | src/main/resources/static/js/card-handler.js:82-85 | splicing (as playCard does here, buildWonder and discardCard at :99-102 and :116-119) a position of the hand removes exactly that card and keeps the others in order; past the end it changes nothing |
| HandSelection.AtMostOneCardLeaves | src/main/resources/static/app.js:359-365 | a splice (here in playCard; buildWonder and discardCard at :368-374 and :377-383 are alike) costs the hand exactly one card when the hand is not empty and the position is before its end, and otherwise changes nothing |
| HandSelection.Hand.constructor | src/main/resources/static/js/card-handler.js:1-3 | a dealt hand with no selection, no overlay and no error |
| HandSelection.Hand.SelectCard | src/main/resources/static/js/card-handler.js:64-68 | the position is selected and the overlay shown; the hand is unchanged |
| HandSelection.Hand.ClearSelection | src/main/resources/static/js/card-handler.js:71-74 | no selection and no overlay; the hand is unchanged |
| HandSelection.Hand.Perform | src/main/resources/static/js/card-handler.js:77-124 | without a selection nothing is sent and nothing changes; otherwise the selected card is sent, a success splices exactly it out, a refusal keeps the hand and shows the server's message or the default, and the selection is cleared either way |
| HandSelection.Hand.PlayCard | src/main/resources/static/js/card-handler.js:77-91 | playCard as Perform with the play action |
| HandSelection.Hand.BuildWonder | src/main/resources/static/js/card-handler.js:94-108 | buildWonder as Perform with the build action |
| HandSelection.Hand.DiscardCard | src/main/resources/static/js/card-handler.js:111-125 | discardCard as Perform with the discard action |
| HandSelection.Hand.PerformIgnoringAnswer | src/main/resources/static/app.js:359-383 | without a selection nothing is sent; otherwise the selected card is sent and spliced out whatever the answer, the selection is cleared and no error is shown |
| TurnBlocker.CheckIsEdgeTriggered | src/main/resources/static/js/turn-blocker.js:9-38 | the flag follows an answer and a failed poll keeps it; the overlay is shown only when the flag rises and hidden, with one reload when the page defines it, only when it falls |
| TurnBlocker.RepeatedStatusIsQuiet | src/main/resources/static/js/turn-blocker.js:23-34 | polling the same answer again fires nothing and keeps the flag |
| TurnBlocker.CheckKeepsHistory | src/main/resources/static/js/turn-blocker.js:23-34 | the events of a poll extend a well-formed show/hide history to one that ends in the new flag |
| TurnBlocker.Blocker.constructor | src/main/resources/static/js/turn-blocker.js:3-4 | not blocking and no events |
| TurnBlocker.Blocker.CheckHasPlayedThisTurn | src/main/resources/static/js/turn-blocker.js:9-38 | the flag and the fired events are those of the latch, and the history stays well formed |

## Left out

- GameStateApi.FreePlaySpec: the three-argument `playCard(ps, card, true)` called at GameStateApiController.java:436 and :595 is not defined by CardPlayManager, which has only `playCard(ps, card)`; the model assumes its evident meaning: a free play that moves the card to the played cards, removes one copy from the hand, queues the card's effect, charges nothing and always succeeds.
- CardActionService.CardsOfAge: `cardService.getCardsByAge`, called at GameController.java:123, CardDistributionManager.java:48 and CardActionService.java:273, is not defined by CardService, which has only `getCardsByAgeAndType`; the model takes it as the catalogue's cards of that age, in catalogue order, and GameController.SubmitCreateGame, CardDistribution and CardActionService all use that reading.
- GameEntity: `setNbrPlayers` and `getNbrPlayers`, used at GameService.java:45 and :251, have no field in GameEntity.java; the model keeps the requested count as the game's `nbrPlayers` field, as their names say.
- JavaText.BlankTrimsToEmpty: a blank string trims to "" only when all of its chars are codes up to U+0020. Java's `isBlank` also accepts the Unicode spaces (U+1680, U+2000-U+2006, U+2008-U+200A, U+2028, U+2029, U+205F, U+3000), which `trim` keeps, so the lemma promises only that a blank string trims to a blank one (JavaText.WideSpaceKeptByTrim shows "\u3000").
- JavaText.ParseInt: only the ASCII digits 0-9 are read. Java's `Integer.parseInt` goes through `Character.digit`, which also accepts the other Unicode decimal digits, so "٣" parses to 3 in Java and is refused by the model. JavaText.IsDigit, JavaText.ToLower, JavaText.ToUpper and JavaText.EqualsIgnoreCase are ASCII-only for the same reason; JavaText.IsWhitespace is Java's full set.
- GameController.DealSevens: when the deck runs out, the cards appended to the seat being dealt are in a managed entity that is never saved explicitly; the model takes the saved state, where that seat and every later one keep their empty hands. Whether Hibernate flushes that partial hand through the game's cascade depends on a persistence context that is not part of this model.
- GameStateApi.Perform: the OLYMPIA_A_STAGE_2_FIRST_CARD_FREE branch of the play action (GameStateApiController.java:432-436) is left out, because it compares effect ids with `==`, which tests reference identity, and an id read back from the database is never the literal; the branch is dead as written. (Within the persistence context that created an effect from the literal it could fire; the model does not track object identity.)
- CardPlay.PayWildcards: the source walks a HashMap, whose iteration order Java does not fix; the model fixes it as the declaration order of the resources (STONE to TEXTILE). When wildcards cannot cover every missing resource, which ones the source covers may differ. The same fixed order is used by CardPlay.PayPairs, CardPlay.AffordOptions and the other loops over resource maps.
- CardPlay.PlayCard: it and its helpers (CardPlay.CanPlaySpec, CardPlay.CanPlayCard, CardPlay.PaidForCard, CardPlay.PlayCardSpec, CardPlay.PayForCard) require a card with a coin cost, leaving out the NullPointerException that unboxing a null `coinCost` throws at CardPlayManager.java:44 and :352. The endpoint GameStateApi.Perform does model that exception (a play of such a card answers the exception).
- Java `int` overflow is not modelled anywhere: coins, victory points, counters, stage numbers, log ids and page arithmetic are unbounded integers. No game reaches 2^31 of anything; `Integer.parseInt` does refuse numbers outside the 32-bit range, as in Java.
- Users.Normalise: `toLowerCase(Locale.ROOT)` at UserService.java:26 and MyUserDetailsService.java:24 is modelled by JavaText.ToLower, which lowers ASCII letters only. In Java "ÉMILE" and "émile" are the same username, in the model they are not; and Java's lowering of "İ" yields two characters, so the model's `|r| <= |username|` does not hold of Java. JavaText.ToUpper and the case-insensitive comparisons are ASCII-only as well.
- The calls to the logging service made by the managers and controllers (debug and info traces) are left out: they only add log entries and never change the outcome. The log table itself is modelled in LoggingService.
- Exceptions and transactions: the transactional managers (TurnManager, CardPlayManager, WonderBuildManager, CardDistributionManager, GameStateManager, GameInitManager) are modelled as rolling the whole game back when they throw. GameStateApiController.selectDiscardCard is not transactional: GameStateApi.TakeSpec keeps the card out of the discard pile when the action throws after the card was taken, and puts it back at the end of the pile only on a refusal (GameStateApiController.java:586-609).
- HandSelection.Hand.Perform, HandSelection.Hand.PerformIgnoringAnswer: the scripts read `selectedIndex` again after awaiting the server (card-handler.js:79-83, app.js:361-363); the model reads it once, before the request. A cancel clicked while a request is in flight makes the script splice `null` (the first card) where the model splices the selected card.
- CardActionService.discardCard (CardActionService.java:177-182) is the same code as CardPlayManager.discardCard and is modelled by CardPlay.DiscardCard; CardActionService.rotateHands (CardActionService.java:244-266) is the same rotation as CardDistribution.RotateSpec.
- The JSON library (Jackson) is a parameter: a reading function from text to a parsed map, a JSON null or a parse error, and a writing function. JSON null values inside maps are not modelled.
- Randomness (`Collections.shuffle`, the random board and side choice) is a parameter: a function required to permute its input, or a given choice.
- Time: log timestamps and the purge cut-off come from a clock parameter.
- LogController.Health: the health endpoint is modelled as its constant reply and has no property beyond it.
- The database: repositories are sequences and maps in the model; `effectDAO.findByEffectId` is a map from effect id to effect.
- Password encoding is an opaque function parameter; Users only stores what it returns.
- The two RegistrationController classes (in the root package and in `controller`) differ only in logging; Users models their shared decision procedure once.
- Null player states, null effects and null neighbours passed to the managers are not modelled; a missing neighbour is a seat without a link.
- CardDistribution: the Age III violet handling of CardDistributionManager is modelled as written (CardDistribution.NoVioletsLeft); only CardActionService's variant has the double-dealing finding below.
- GameStateApi: the "Game not found" answer after a found player state cannot happen when the state's game exists, and the model has no dangling game reference, so it never answers it.
- Rendering, DOM updates, polling timers, CSRF plumbing, fetch wrappers and the other browser scripts (render.js, loader.js, player-view.js, main.js, config.js, api.js) are not part of this model; HandSelection.SendCardAction models the `sendCardAction` fallback of app.js, which api.js repeats.

## Findings

| source | as written | input that shows it | evidently intended | confidence | as-written member | corrected member |
|---|---|---|---|---|---|---|
| src/main/java/com/reynaud/wonders/entity/RessourceCostConverter.java:40 | an empty cost is written as "{}" (:19-20), and reading "{}" back copies Jackson's empty HashMap into `new EnumMap<>(map)`, which throws IllegalArgumentException, not caught by the JsonProcessingException handler | a card with no resource cost, saved and loaded again | "{}" reads back as no cost | high, not executed | CostConverters.CostFromColumnSpec, CostConverters.CostFromColumn, CostConverters.EmptyCostNotReadBack | CostConverters.CostFromColumnIntended, CostConverters.EmptyCostRoundTrip |
| src/main/java/com/reynaud/wonders/manager/WonderBuildManager.java:192 | `wonderStage >= numberOfStages - 1` reports "all stages built" one stage early | a three-stage wonder with two stages built and a free third stage | refuse only when `wonderStage >= numberOfStages` | high, not executed | WonderBuild.CanBuildAsWritten, WonderBuild.LastStageRefusedAsWritten, WonderBuild.LastStageCounterexample | WonderBuild.CanBuildSpec, WonderBuild.CanBuildWonderWithCard, WonderBuild.CanBuildIsAffordability |
| src/main/java/com/reynaud/wonders/service/CardActionService.java:155 | the same early guard in the older variant | a wonder with numberOfStages - 1 stages built | refuse only when all stages are built | high, not executed | CardActionService.CanBuildWith, CardActionService.LastStageRefusedAsWritten | CardActionService.BuildWonderWithCard, CardActionService.LastStageBuildable |
| src/main/java/com/reynaud/wonders/service/CardActionService.java:286-289 | the Age III deck keeps every violet card allowed for the table and then adds the n + 2 drawn guilds again | any Age III deal: each drawn guild is in the deck twice | keep the non-violet cards and only the drawn guilds | high, not executed | CardActionService.AgeDeck, CardActionService.GuildsDealtTwice | CardActionService.DealAgeCards, CardActionService.GuildsDealtOnce |
| src/main/java/com/reynaud/wonders/service/CardActionService.java:214-218 | at the last card the loop removes the acting player's first card once per player | two players, each holding one card, both played | each player's own last card goes to the discard pile | high, not executed | CardActionService.EndOfTurnSpec, CardActionService.LastCardThrowsAsWritten | CardActionService.HandleEndOfTurn, CardActionService.LastCardDiscards |
| src/main/java/com/reynaud/wonders/manager/TurnManager.java:170 | `effect.getEffectId() != "BABYLON_B_STAGE_2_PLAY_LAST_CARDS"` compares references, so the Babylon effect loaded from the database is removed like every other | a player with BABYLON_B_STAGE_2_PLAY_LAST_CARDS pending at the end of a turn | compare the text and keep that effect pending | medium, not executed | TurnManager.ApplyPendingSpec, TurnManager.AsWrittenConsumesAllDue, TurnManager.PlayLastCardsCounterexample | TurnManager.IntendedKeepsPlayLastCards, TurnManager.HandleEndOfTurn |
| src/main/java/com/reynaud/wonders/controller/GameStateApiController.java:733-734 | `remove("hand")` and `remove("availableActions")` act on the outer player entry, not on the nested state, so every other player's hand and actions are sent | any game page with two players | send other players' public state only | high, not executed | GameStateView.Entry, GameStateView.HandShownAsWritten | GameStateView.OtherPlayers, GameStateView.GetPlayerGameState |
| src/main/java/com/reynaud/wonders/controller/GameStateApiController.java:732 | isNeighbor compares a player's user id with the neighbours' player-state ids | a table where no player-state id equals a user id: nobody is a neighbour | compare player-state ids, or user ids on both sides | high, not executed | GameStateView.IsNeighbour, GameStateView.NeighbourCounterexample | GameStateView.NeighbourIntended, GameStateView.OtherPlayers |
