# FPL Analyser: a Dafny model of the squad analysis server

FPL Analyser is a small Flask server for Fantasy Premier League managers. A manager posts a
15-player squad: eleven starters, four substitutes and a captain. The server answers with:

- the transfers worth making, with the best one picked as the free transfer;
- the chips (Bench Boost, Triple Captain, Wildcard, Free Hit) worth playing;
- the lineup that results after the free transfer;
- a greedy 15-player wildcard squad;
- a table describing the current squad.

This project models the selection and lookup logic behind those answers, all of it in `app.py`:

- **Lookups** (`lookups.dfy`):
  - the fixture difficulty of a club in a gameweek;
  - the club badge URL;
  - the player photo URL, including its placeholder rules.
- **Replacements** (`replacements.dfy`): `suggest_replacements`.
  - The squad is sorted worst first.
  - Each player gets the best-scoring cheaper-or-equal upgrade of the same position from outside the squad.
- **Chips** (`chips.dfy`): `suggest_chips`. The four chip tests and the order of their results.
- **Wildcard** (`wildcard.dfy`): `suggest_wildcard_team`.
  - The catalogue is ranked by score.
  - A greedy fill respects the 100.0 budget, the 2/5/5/3 position limits, three players per club and 15 players.
  - The squad is split into an XI and a bench, then labelled.
- **Lineups** (`lineups.dfy`): helpers shared by both lineup builders.
  - The per-position lists.
  - The scoring loop.
  - Captain, vice-captain, starter and substitute labels.
- **Formation** (`formation.dfy`): the suggested lineup after the free transfer.
  - It is seeded with 1 goalkeeper, 3 defenders, 2 midfielders and 1 forward.
  - The 4 best remaining outfielders complete the XI.
  - The rest form the bench, goalkeepers first.
- **Analysis** (`analysis.dfy`): the `/analyze` handler's own steps.
  - Request validation.
  - The bench as the complement of the starters.
  - The split of the sorted suggestions into the free transfer and the rest.
  - The squad after the free transfer.
  - The sorted team details table.
- **Sorting** (`sorting.dfy`) and **Types** (`types.dfy`): a stable insertion sort standing in for Python's `sort`/`sorted`, slices, and the data types.

Conventions:

- The scoring function `calculate_player_score` is an opaque parameter `rate: (Player, int) -> real`. The model calls it on a player and a fixture difficulty and makes no assumption about its values.
- Prices are integer tenths of a million, as the `now_cost` field stores them. The 100.0 budget is therefore 1000.
- Python's sort with `key=` and `reverse=True` becomes `Sorting.SortBy` with a "may stand ahead of" comparator, for example `ScoreAtLeast`.
- Loops that update state become methods with loop invariants, each proved equal to a recursive specification function. The properties are proved about those functions.

## Model

| member | source | states |
|---|---|---|
| Sorting.SortBy | app.py:228 | the sorted list has the input's length and is a permutation of it |
| Sorting.SortByIsSorted | app.py:228 | for any total preorder, every element of the result may stand ahead of every later one |
| Sorting.InsertSorted | app.py:228 | inserting into a sorted list keeps it sorted |
| Sorting.SortByMembers | app.py:228 | sorting neither adds nor loses an element |
| Sorting.Take | app.py:405 | `s[:n]` has min(n, len s) elements |
| Sorting.Drop | app.py:406 | `s[n:]` has len s - n elements, or none |
| Sorting.TakeDropJoin | app.py:405-406 | `s[:n] + s[n:] == s`; every element lies in one of the two |
| Sorting.TakeDropSplit | app.py:275-284 | `s[:a] + s[a:][:b] == s[:a+b]` and `s[a:][b:] == s[a+b:]` |
| Sorting.TakeBeforeDrop | app.py:446-447 | in a sorted list every element of the head may stand ahead of every element of the tail |
| Sorting.SortedSlices | app.py:446-450 | both slices of a sorted list are sorted |
| Types.ScoreAtLeastIsPreorder | app.py:228 | "score at least" is total and transitive, so sorting by it yields descending scores |
| Lookups.SearchDifficultyNone | app.py:115-121 | when no fixture of the gameweek involves the club, the loop falls through to 3 |
| Lookups.SearchDifficultyFirst | app.py:115-120 | the first fixture of the gameweek involving the club decides; the home side is checked first |
| Lookups.FixtureDifficulty | app.py:110-121 | the difficulty is the neutral 3, or the home or away difficulty of a fixture in the requested gameweek that involves the club (first match: `FixtureDifficultyFirstMatch`; the default: `FixtureDifficultyDefault`) |
| Lookups.SearchDifficulty | app.py:115-121 | the scan gives 3, or the difficulty of some fixture of the gameweek involving the club |
| Lookups.FixtureDifficultyDefault | app.py:110-121 | the difficulty is 3 with no fixtures, with no (or a zero) gameweek, or when no fixture involves the club |
| Lookups.FixtureDifficultyFirstMatch | app.py:110-120 | with a gameweek given, the first involving fixture gives the club's home or away difficulty |
| Lookups.DigitChar | app.py:54 | a digit is rendered as the ASCII character with that value |
| Lookups.NatToDecimal | app.py:54 | the rendering of a natural number is a non-empty string of ASCII digits |
| Lookups.DecimalRoundTrip | app.py:54 | reading the digits back gives the number: decimal rendering is injective |
| Lookups.LogoUrlNonEmpty | app.py:54 | a found club always yields a non-empty URL, so "" means not found |
| Lookups.ClubLogoUrl | app.py:48-55 | the URL is empty, or the badge URL of some team with the requested id (which team: `ClubLogoUrlFirstMatch`; when empty: `ClubLogoUrlEmpty`) |
| Lookups.ClubLogoUrlFirstMatch | app.py:48-54 | the URL is built from the code of the first team with the requested id |
| Lookups.ClubLogoUrlEmpty | app.py:48-55 | the URL is empty exactly when no team has the id |
| Lookups.FaceUrlIsNotPlaceholder | app.py:60-68 | a built face URL never equals the placeholder |
| Lookups.PlayerFaceUrl | app.py:57-68 | the placeholder is returned exactly when the photo is missing or empty, or is not all digits once ".jpg" is removed; otherwise the URL of the stripped photo id |
| Lookups.StripJpgKeepsDigits | app.py:64 | removing ".jpg" leaves a leading run of digits untouched |
| Lookups.FaceUrlOfPhotoName | app.py:57-68 | a photo named `<n>.jpg` yields the face URL of `<n>`, whose digits read back as n |
| Replacements.ByScoreAscendingIsPreorder | app.py:129 | the ascending score order used to rank the squad is a total preorder |
| Replacements.Candidates | app.py:141-148 | a catalogue player is a candidate exactly when it has the same position, is outside the squad, costs no more and scores strictly more; it carries its adjusted score |
| Replacements.CandidatesSnoc | app.py:142-148 | one more catalogue player appends one candidate exactly when it qualifies |
| Replacements.CollectCandidates | app.py:141-148 | the candidate loop builds exactly `Candidates` |
| Replacements.BestUpgrade | app.py:150-167 | an upgrade found is a catalogue player that qualifies (same position, outside the squad, not dearer, strictly better) with its adjusted score; that it is the best and exists whenever one qualifies: `BestUpgradeIsBest` |
| Replacements.SuggestionsFor | app.py:135-167 | no more suggestions than squad entries; their pairing with the entries, each a best upgrade with positive gain: `SuggestionsForSpec` |
| Replacements.SuggestForRanked | app.py:135-167 | the outer loop over the sorted squad builds exactly the suggestions `SuggestionsFor` describes |
| Replacements.Upgradable | app.py:135-151 | no more upgradable entries than squad entries; which entries: `UpgradableComplete`, `UpgradableWithin`, `UpgradableSub` |
| Replacements.BestUpgradeIsBest | app.py:150-167 | a squad entry gets a suggestion exactly when some catalogue player qualifies. The chosen player qualifies, scores at least as well as every qualifying player, has gain equal to the score difference and positive, and carries both clubs' logo URLs and both face URLs |
| Replacements.SuggestionsForSpec | app.py:134-169 | suggestion k is the best upgrade for the k-th upgradable squad entry. The upgradable entries are a sub-multiset of the squad entries, so each entry receives at most one suggestion |
| Replacements.UpgradableSub | app.py:135-167 | each squad entry occurs among the upgradable entries at most as often as in the squad |
| Replacements.OneSuggestionPerPlayer | app.py:135-167 | when the squad's player ids are distinct, no two suggestions name the same outgoing player |
| Replacements.UpgradableComplete | app.py:135-151 | a squad entry receives a suggestion exactly when some catalogue player qualifies for it |
| Replacements.UpgradableWithin | app.py:135-151 | every entry that receives a suggestion is in the squad and has an upgrade |
| Replacements.SuggestionsForSnoc | app.py:135-167 | one more squad entry appends at most its own suggestion |
| Replacements.SuggestReplacements | app.py:123-169 | the squad is permuted into ascending score order; the suggestions pair each upgradable entry, in that order, with its best upgrade, and the upgradable entries are a sub-multiset of the squad, one suggestion per entry at most |
| Chips.BestCaptain | app.py:189 | the captain candidate is a starter and no starter scores more |
| Chips.SuggestChips | app.py:171-216 | each chip is suggested exactly when it is unused and its test passes: bench total above 15, a starter above 8.5, at least 5 other suggestions, the top other gain above 3.0. Chips appear in the order Bench Boost, Triple Captain, Wildcard, Free Hit |
| Wildcard.RankedCatalog | app.py:220-228 | the ranked catalogue holds exactly the scored catalogue players; all positioned when the catalogue is |
| Wildcard.PosCountSnoc | app.py:254 | a new member raises its own position's count by one |
| Wildcard.TeamCountSnoc | app.py:255 | a new member raises its own club's count by one |
| Wildcard.TotalCostSnoc | app.py:253 | a new member adds its price to what was spent |
| Wildcard.CountersAfterJoin | app.py:252-255 | all three counters move as the loop's updates say |
| Wildcard.AdmitKeepsLimits | app.py:247-255 | admitting a candidate keeps the squad within 15, the budget, the position limits and three per club |
| Wildcard.Greedy | app.py:238-255 | the greedy pass grows the squad by at most the ranked players and never past 15; limits, prefix and maximality: `GreedyWithinLimits`, `GreedyExtends`, `GreedyMaximal` |
| Wildcard.GreedyWithinLimits | app.py:238-255 | the greedy squad respects every limit |
| Wildcard.GreedyExtends | app.py:238-255 | the greedy pass only appends, and only players from the ranked list |
| Wildcard.TeamCountAppend | app.py:248 | club counts never fall as the squad grows |
| Wildcard.TotalCostAppend | app.py:251 | spending never falls as the squad grows |
| Wildcard.RejectionPersists | app.py:248-251 | a candidate refused by a squad is refused by any larger squad |
| Wildcard.GreedyMaximal | app.py:238-255 | the greedy squad is full, or every ranked player left out would be refused by the final squad |
| Wildcard.GreedySorted | app.py:228-252 | the greedy squad is in descending score order |
| Wildcard.WildcardSquadSpec | app.py:218-255 | the wildcard squad is within limits, best first, drawn from the catalogue, and maximal |
| Wildcard.WildcardSquadShape | app.py:218-255 | the wildcard squad is within limits and every member has a position |
| Wildcard.GreedyStep | app.py:238-255 | one iteration of the loop is one step of the greedy function |
| Wildcard.Consider | app.py:242-255 | one candidate joins exactly when the squad admits it, and the budget, position and club counters stay in step with the squad |
| Wildcard.PickGreedily | app.py:231-255 | the loop builds exactly the greedy squad |
| Wildcard.BuildSquad | app.py:220-255 | scoring, ranking and the greedy loop build exactly the wildcard squad |
| Wildcard.SplitSquad | app.py:257-284 | the XI and bench are drawn from the squad (all of it when positioned and at most two goalkeepers). The XI has at most 11 players, exactly one goalkeeper when the squad has one, and 11 when there is a goalkeeper and at least 10 outfielders. Starters outscore substitutes of their kind, and the bench is ordered |
| Wildcard.SeatKeepers | app.py:267-269 | the first goalkeeper starts and the second sits |
| Wildcard.FillLineup | app.py:264-284 | the XI is the starting goalkeeper plus the top of the pool up to 11; the bench is the second goalkeeper plus the rest of the pool |
| Wildcard.SplitFacts | app.py:257-284 | the split's slices have the properties `SplitSquad` promises |
| Wildcard.PositionList | app.py:258-261 | each position list is a sorted permutation of that position's squad players |
| Wildcard.OutfieldPool | app.py:272 | the outfield pool holds the three outfield lists, sorted, with no goalkeeper |
| Wildcard.SplitMultiset | app.py:268-284 | nobody is duplicated by the split, and nobody is lost with at most two goalkeepers |
| Wildcard.SplitRoles | app.py:268-284 | the XI's size, its goalkeeper, starters beating substitutes, and the bench order |
| Wildcard.SuggestWildcardTeam | app.py:218-297 | the lineup labels an XI and bench that together are exactly the wildcard squad: the XI's top scorer is captain, the second is vice-captain, the rest of the XI are starters, and every bench player is a substitute. The XI has at most 11 players and one goalkeeper when the squad has one. Starters outscore substitutes of their kind, and the bench is ordered. The lineup has at most 15 entries |
| Wildcard.LabelSquad | app.py:257-296 | a positioned squad with at most two goalkeepers is split into an XI and bench that hold all of it and is labelled in full. The roles follow the XI sorted by score, then the bench as substitutes. The XI has one goalkeeper when there is one, and 11 players when there is a goalkeeper and at least 10 outfielders. Starters outscore substitutes of their kind, and the bench is ordered |
| Wildcard.LabelFacts | app.py:286-296 | the labelled lineup has the squad's players and size |
| Wildcard.BenchRoles | app.py:294-295 | every entry past the XI is a substitute |
| Wildcard.SameSize | app.py:286-296 | permuted lists have the same size and the same players |
| Lineups.OfPosition | app.py:258-261 | the position list holds exactly the squad players of that position |
| Lineups.OfPositionAppend | app.py:431-434 | filtering distributes over concatenation |
| Lineups.PosCountAppend | app.py:431-434 | position counts add over concatenation |
| Lineups.OfPositionCount | app.py:431-434 | the position list keeps each player of that position with its multiplicity |
| Lineups.OfPositionAll | app.py:431-434 | filtering a list of one position by that position keeps it whole |
| Lineups.PosCountUniform | app.py:431-434 | a list of one position counts fully there and nowhere else |
| Lineups.PosCountNone | app.py:431-434 | a list without a position counts zero for it |
| Lineups.PositionsCover | app.py:431-434 | the four lists never hold more than the squad, and hold all of it when every player has a position |
| Lineups.ByPositionSnoc | app.py:431-434 | one more player joins exactly one list, or none when it has no position |
| Lineups.ScorePlayers | app.py:424-428 | the loop scores each player, in order, by its fixture-adjusted score |
| Lineups.BenchOrderedConcat | app.py:450 | goalkeepers followed by sorted outfielders form an ordered bench |
| Lineups.PlayersOfAppend | app.py:456-461 | the players of a concatenation are the concatenated players |
| Lineups.PlayersOfPerm | app.py:454 | permuted scored lists carry the same players |
| Lineups.StartersByScore | app.py:454 | the sorted XI is in descending score order, holds the same players, and its first player scores highest |
| Lineups.FormatLineup | app.py:452-461 | the XI sorted by descending score comes first as captain, vice-captain, then starters, so the captain is the XI's top scorer. The bench follows in its own order as substitutes. No player is lost or added |
| Lineups.LineupPlayers | app.py:452-461 | the lineup's players are those of the XI and bench |
| Analysis.Select | app.py:393 | a filtered list is never longer than its source |
| Analysis.SelectMembers | app.py:420 | a player survives the filter exactly when it is in the list and the test keeps it |
| Analysis.SelectNone | app.py:420 | a filter that keeps nobody yields the empty list |
| Analysis.SelectAppend | app.py:420-421 | filtering distributes over concatenation |
| Analysis.SelectSplit | app.py:393 | a test and its complement share the list out between them |
| Analysis.SelectAll | app.py:420 | a filter that keeps everybody changes nothing |
| Analysis.Lookup | app.py:364 | no player is found exactly when none has the id; a found player is in the catalogue with that id |
| Analysis.LookupAppend | app.py:364 | a later entry overrides an earlier one with the same id |
| Analysis.Resolve | app.py:366-367 | resolved players are catalogue players whose ids were asked for, no more of them than ids |
| Analysis.ResolveAppend | app.py:352-367 | resolving `starting + bench` resolves each part in turn |
| Analysis.ResolveComplete | app.py:366-369 | every id is resolved exactly when each one is in the catalogue |
| Analysis.ValidateRequest | app.py:346-377 | a missing key, and only that, gives the missing-fields error. With all keys present, the request is accepted exactly when `starting_ids + bench_ids` resolves to 15 players and `starting_ids` to 11. The accepted squad is those resolved lists, with the starters first. A squad-size error reports the resolved squad's count (not 15); a starting-size error comes only after a full squad and reports the resolved starters' count (not 11) |
| Analysis.FullSquadAccepted | app.py:346-377 | 11 starting and 4 bench ids that all resolve are accepted |
| Analysis.BenchPlayers | app.py:393 | the bench holds exactly the squad players whose id is not a starting id |
| Analysis.StartersIn | app.py:393 | the complementary filter holds exactly the squad players whose id is a starting id |
| Analysis.BenchComplement | app.py:393 | starters and bench together are the whole squad |
| Analysis.AcceptedBench | app.py:366-393 | for an accepted request, the starters come first among the players with a starting id, the bench has at most 4 players, and all of them are resolved bench ids |
| Analysis.AcceptedParts | app.py:393 | squad players who are resolved starters are kept by the starter test and dropped by the bench test |
| Analysis.StartersKept | app.py:393 | a kept prefix survives the filter whole |
| Analysis.StartersDropped | app.py:393 | a dropped prefix vanishes from the filter |
| Analysis.SplitSuggestions | app.py:401-406 | free transfer and other suggestions together are the suggestions sorted by descending gain, a permutation of them. There is one free transfer exactly when there is any suggestion, and it has the largest gain |
| Analysis.NewSquadByName | app.py:415-421 | a player stays exactly when its web name is not an outgoing name; the incoming players join |
| Analysis.NameRemovalShrinksSquad | app.py:415-421 | two squad players sharing the outgoing web name both leave, so one transfer shrinks the squad |
| Analysis.SelectLosesTwo | app.py:420 | a filter that drops two distinct players shortens the list by two |
| Analysis.SelectSizes | app.py:420 | a test and its complement split the list's length |
| Analysis.SelectsTwo | app.py:420 | two distinct players passing a test leave at least two in its result |
| Analysis.NewSquadById | app.py:415-421 | a player stays exactly when its id is not an outgoing id; the incoming players join |
| Analysis.TransferSwapsOne | app.py:415-421 | with distinct ids, one transfer swaps exactly the outgoing player for the incoming one and keeps 15 at 15 |
| Analysis.WithoutSlot | app.py:420 | removing one slot removes one copy of its player |
| Analysis.SelectDropsOne | app.py:420 | with distinct ids, filtering out one id removes exactly that slot |
| Analysis.OthersKept | app.py:420 | with distinct ids, every other slot passes the id test |
| Analysis.DropSlot | app.py:420 | a filter that drops one slot and keeps the rest removes exactly that slot |
| Analysis.DropMiddle | app.py:420 | the same for a list given as before, the dropped player, and after |
| Analysis.StrLeTotal | app.py:494 | any two names compare one way or the other |
| Analysis.StrLeTrans | app.py:494 | name order is transitive |
| Analysis.DetailBeforeIsPreorder | app.py:494 | the (not a starter, name) key order is a total preorder |
| Analysis.TeamDetails | app.py:485-494 | the table holds one row per squad player; starters come first, and rows of the same role are in name order |
| Formation.PickFormationXi | app.py:430-450 | the XI and bench are drawn from the squad, all of it when positioned. The XI has at most 11, one goalkeeper when available, and at least min(3, n) defenders, min(2, n) midfielders and min(1, n) forwards. It has 11 when the squad can fill the formation. Starters outscore bench players of the same position, and the bench is ordered |
| Formation.SeedFormation | app.py:437-450 | the XI is the seeded formation plus the 4 best of the pool; the bench is the remaining goalkeepers plus the rest of the pool, sorted |
| Formation.FormationFacts | app.py:430-450 | the seeded XI and bench have the properties `PickFormationXi` promises |
| Formation.FormationMultiset | app.py:440-450 | the XI and bench are the four position lists, rearranged |
| Formation.PoolPositions | app.py:441-446 | the pool holds the unseeded outfielders and no goalkeeper |
| Formation.FormationCounts | app.py:440-447 | the XI's size and the per-position seat counts |
| Formation.TakeOfOne | app.py:441-443 | a slice of a one-position list keeps that position |
| Formation.SeatCounts | app.py:440-447 | the seeded lists contribute their sizes to the position counts |
| Formation.GoalkeeperSeat | app.py:440 | only the seeded goalkeeper counts as a goalkeeper in the XI |
| Formation.SeatAtLeast | app.py:441-443 | seeded players count toward their position |
| Formation.FormationRoles | app.py:440-450 | seeded and pooled starters beat the bench players of their position; the bench is ordered |
| Formation.SeedBeats | app.py:441-447 | the seeded head of a ranked list beats any pooled player of that position |
| Formation.SuggestedLineupFt | app.py:411-461 | with no free transfer the lineup is empty. Otherwise it labels the formation XI and bench of the new squad. The XI's top scorer is captain, the second vice-captain, the rest starters, and the bench players substitutes. There is one goalkeeper when available, and at least min(3, n) defenders, min(2, n) midfielders and min(1, n) forwards. Starters outscore bench players of their position, and the bench is ordered. All of the new squad is used when positioned, and 11 start when it can fill the formation |
| Formation.LineupFacts | app.py:452-461 | the formatted lineup's players, size and roles |

## Left out

- The Flask routes, JSON parsing and encoding, the HTTP fetches of the FPL API, their caching, the 500 responses, and the logging messages are not modelled.
- `calculate_player_score` and `rate_team` are not modelled. The score is an opaque parameter, so no property depends on its weights or on the difficulty modifiers. The team rating is not part of this model.
- The `reason` strings and their `:.1f` formatting are not modelled. The chip names are a datatype.
- The `form` field and the `/ 10.0` price conversion in the team details and lineup rows are not modelled. Prices stay in integer tenths.
- Wildcard.Admits: the budget is a float in the source (100.0, decremented by `now_cost / 10.0`). The model keeps it exactly in tenths, so floating-point rounding at the budget's edge is not captured.
- Lookups.PlayerFaceUrl: `str.isdigit` also accepts non-ASCII digits. The model accepts only '0'-'9'.
- Sorting.SortBy: the insertion sort keeps equal keys in input order, as Python's sort does, but no lemma states that. The contracts say sorted and a permutation, and the order among equal scores is not pinned down.
- Replacements.BestUpgradeIsBest: among candidates with equal scores, which one is chosen follows from the sort's stability, which is not stated.
- Replacements.SuggestReplacements: the source sorts the squad list in place. The handler later reuses that same list as the current squad (app.py:419). The model returns the reordered list as `ranked`, and the caller must pass it on. Aliasing is not modelled.
- Wildcard.BuildSquad, Wildcard.SuggestWildcardTeam: these require every catalogue player to have an `element_type` of 1-4. That is stronger than the source needs. The source raises a KeyError only when the greedy loop reaches such a player while the squad has fewer than 15 and the player's club has fewer than 3 (app.py:239-251). The split at app.py:258-261 simply filters such players out, so the source handles some catalogues that the model excludes.
- Wildcard.GreedyMaximal, Wildcard.WildcardSquadSpec: these require non-negative prices.
- Wildcard.SplitSquad: the source seats the first three pooled outfielders without regard to position, so the wildcard XI meets no formation minimum. The model states what the code does.
- The loop that finds the next gameweek (app.py:379-384) is not modelled. The gameweek is the `nextGameweek` field of the catalogue.
- The gameweek fixtures list (app.py:471-483) is not modelled, because it is display-only.
- The test that decides whether the wildcard lineup is built (app.py:465-469) is not modelled, because it only checks for the Wildcard chip in `Chips.SuggestChips`'s result.
- `get_all_players` and the browser-side editor are not part of this model.
- Analysis.ValidateRequest: the value of `captain_id` is not used, only its presence. `usedChips` is taken as a given `UsedChips` value. Non-list ids are not modelled.
- Analysis.AcceptedBench: a request whose bench ids repeat a starting id still passes the size checks, but then leaves fewer than 4 players on the bench. The model states the bound, not an exact 4.
- Analysis.TransferSwapsOne: this requires distinct ids in the squad. The source does not check for them.
- Formation.SuggestedLineupFt: this builds the new squad with the corrected by-id removal (`Analysis.NewSquadById`), not the by-name removal of app.py:420 (`Analysis.NewSquadByName`). When two squad players share the outgoing player's web name, the source's lineup has one entry fewer than the model's. See Findings.

## Findings

| source | as written | input that shows it | evidently intended | confidence | as-written member | corrected member |
|---|---|---|---|---|---|---|
| app.py:415-421 | the squad after the free transfer drops every player whose `web_name` equals the outgoing player's `web_name` | a squad holding two players with different ids and the same web name, for example two "Wilson"s, where one of them is transferred out: both leave and only one arrives, giving a 14-player squad | drop exactly the outgoing player, identified by id, so the squad keeps 15 players | medium, not executed | Analysis.NewSquadByName, Analysis.NameRemovalShrinksSquad | Analysis.NewSquadById, Analysis.TransferSwapsOne |
