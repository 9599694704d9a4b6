# Wolf kill counter store, modelled in Dafny

This project models the persistent counter store of the WolfKillCounter mod.
The mod counts the wolves killed on a game server, per player and in total.
It is meant to double a player's or the server's kill goal when a count lands on it exactly. As written it throws instead (see "## Findings").
It ranks the top five killers, and it loads its save file in any of its historical formats.

The source keeps four fields:

- `wolfKillCount`: player name to an `int[] { kills, goal }`;
- `currentLeaderboard`: name to kills;
- `totalWolfKillCount`;
- `serverKillGoal`.

The model has two layers:

- A value layer of functions and lemmas:
  - `Goals`: `CalculateGoal` with C#'s truncating division.
  - `KillState`: the state, the saved `WolfKillData` record, and one entity death as the function `RecordKill`.
  - `Json`: the parsed save document.
  - `Migration`: `LoadWolfKillData`'s migration as the function `Load`, and the writing side of a save.
  - `Ranking`: `GetTopFive`, a stable descending sort cut to five.
- An imperative layer, `CounterStore.WolfKillCounterModSystem`:
  - It is a class with the source's four fields. Each player's `int[]` is a two-element `array<int>` that is updated in place.
  - Each method is proved to change the store exactly as the value-layer function says. `Model()` reads the fields as a `KillState.State`.

Points a reader might expect that the code does not do:

- `CalculateGoal(0)` is 0, not 50. A count on a multiple of 50 rounds to itself.
- So a legacy integer count of 50 loads as `[50, 50]`. That player's goal is never reached exactly again (`KillState.PlayerGoalStaysBehind`).
- The array format keeps a stored goal exactly as saved. It is not raised to the rounded goal when it is smaller.
- Loading does not add missing leaderboard entries for players in the kill counts, and does not drop leaderboard entries that have no kill count.
- In the intended handler (`KillState.RecordKill`), the player announcement reports `CalculateGoal(kills)` and the stored goal is doubled. For a goal on a multiple of 50 the reported value is the goal just reached. For any other goal it is not: a loaded `{12, 13}` reaches 13, reports 50 and stores 26. As written, the handler throws before either happens.
- A wolf death with no killing player throws at `ContainsKey(null)` after the total has been counted. A new player whose name is already on the leaderboard makes `Add` throw after the record has been added. In both cases the goal checks are skipped. Both faults are outcomes of `RecordKill`.
- The field `serverChannel` is never assigned, so every goal announcement throws before its goal is doubled. This is recorded under "## Findings". `KillState.RecordKillAsWritten` models that behaviour. `KillState.RecordKill` and the class model the evidently intended behaviour, in which the broadcast returns.

## Model

| member | source | states |
|---|---|---|
| Goals.TruncDiv | WolfKillCounter/WolfKillCounterModSystem.cs:197 | C# `/` truncates toward zero: the quotient times the divisor lies within one divisor of the dividend, on the dividend's side of zero |
| Goals.CalculateGoal | WolfKillCounter/WolfKillCounterModSystem.cs:193-198 | the result is a multiple of 50; for kills ≥ 0 it lies in [kills, kills + 50) and equals kills exactly when kills is a multiple of 50; a negative count gets a goal ≤ 0 |
| Goals.CalculateGoalIsLeast | WolfKillCounter/WolfKillCounterModSystem.cs:196-197 | no multiple of 50 that is ≥ kills is smaller than the result |
| Goals.CalculateGoalBoundaries | WolfKillCounter/WolfKillCounterModSystem.cs:193-198 | 0 ↦ 0, 1 ↦ 50, 50 ↦ 50, 51 ↦ 100 |
| KillState.Snapshot | WolfKillCounter/WolfKillCounterModSystem.cs:201-209 | the saved record holds one `[kills, goal]` array per player under the same name, and the leaderboard, total and server goal as they are |
| KillState.CountKill | WolfKillCounter/WolfKillCounterModSystem.cs:97-106 | the player's record gains one kill, a new player starting from `{0, 50}`; no other record changes; `Add` fails exactly for a new name already on the leaderboard, which then keeps its entry; otherwise the leaderboard entry becomes the new count; total and server goal unchanged |
| KillState.CheckGoals | WolfKillCounter/WolfKillCounterModSystem.cs:108-121 | intended behaviour: the server goal doubles iff the total equals it; the player goal doubles iff the kills equal it; the announcements are twice the old server goal and `CalculateGoal(kills)`; every other record, the leaderboard and the total are unchanged |
| KillState.Count | WolfKillCounter/WolfKillCounterModSystem.cs:86-106 | a non-wolf changes nothing; a wolf adds 1 to the total before anything can fail; no killer faults at once; with a killer, the state is the attribution's, and the goal checks follow exactly when `Add` succeeds |
| KillState.RecordKill | WolfKillCounter/WolfKillCounterModSystem.cs:83-122 | a non-wolf changes nothing; every wolf death adds exactly 1 to the total; a null killer faults with nothing else changed; a new name already on the leaderboard faults with only `{1, 50}` added; otherwise the player's kills rise by 1, the leaderboard entry becomes the new kills, other players' records are unchanged, a new player starts at `{1, 50}`, the server goal doubles iff the new total equals it, and the player goal doubles iff the new kills equal it, with the reported value `CalculateGoal(kills)` |
| KillState.KillKeepsGoalsAhead | WolfKillCounter/WolfKillCounterModSystem.cs:97-121 | if every player has 0 < goal and kills < goal, this still holds after any event, faults included |
| KillState.CountedKillKeepsServerGoalAhead | WolfKillCounter/WolfKillCounterModSystem.cs:88-113 | 0 < serverGoal and total < serverGoal are preserved by every event that does not fault |
| KillState.NullKillerSkipsServerGoal | WolfKillCounter/WolfKillCounterModSystem.cs:88-113 | a killer-less wolf death that lands the total on the server goal faults and leaves the goal equal to the total, not doubled |
| KillState.ServerGoalStaysBehind | WolfKillCounter/WolfKillCounterModSystem.cs:109-113 | once the total is at or past the server goal, no later event changes the goal or announces it |
| KillState.PlayerGoalStaysBehind | WolfKillCounter/WolfKillCounterModSystem.cs:116-121 | a player whose kills are at or past their goal never escalates again: the goal stays, kills move past it, and no announcement is made |
| KillState.PlayerAnnouncementReportsReachedGoal | WolfKillCounter/WolfKillCounterModSystem.cs:116-121 | when a positive goal that is a multiple of 50 is reached, the announcement reports that goal, and the stored goal becomes twice it |
| KillState.CheckGoalsAsWritten | WolfKillCounter/WolfKillCounterModSystem.cs:108-121 | as written: the state is unchanged; the event faults exactly when the total equals the server goal or the player's kills equal their goal, and otherwise ends with no announcement |
| KillState.RecordKillAsWritten | WolfKillCounter/WolfKillCounterModSystem.cs:83-122 | as written: no event changes the server goal or any existing player's goal, and no event announces anything |
| KillState.AsWrittenDiffersOnlyAtGoals | WolfKillCounter/WolfKillCounterModSystem.cs:108-121 | the written and intended handlers agree on every event that reaches no goal; on one that reaches a goal, the written one faults with the kill counted and both goals unchanged |
| KillState.AsWrittenBreaksGoalsAhead | WolfKillCounter/WolfKillCounterModSystem.cs:116-120 | as written, a player at `{49, 50}` whose kill reaches the goal ends at `{50, 50}` and the event faults, so the goals are no longer ahead of the counts |
| KillState.AsWrittenServerGoalNeverDoubles | WolfKillCounter/WolfKillCounterModSystem.cs:109-112 | as written, a kill landing the total on the server goal faults and leaves the goal equal to the total |
| KillState.ResetLeaderboard | WolfKillCounter/WolfKillCounterModSystem.cs:226-229 | the leaderboard is emptied; kill records, total and server goal are unchanged |
| KillState.ResetThenKillShowsLifetimeKills | WolfKillCounter/WolfKillCounterModSystem.cs:97-100 | after a reset, a known player's next kill puts their lifetime kills + 1 on the leaderboard, as its only entry |
| Migration.MigrateKillCount | WolfKillCounter/WolfKillCounterModSystem.cs:168-185 | a `KillCounts` value is migrated exactly when it is an integer or an array; any other value is skipped |
| Migration.LoadKillCounts | WolfKillCounter/WolfKillCounterModSystem.cs:168-185 | every loaded record is the migration of an integer or array property with that name |
| Migration.LoadKillCountsEntry | WolfKillCounter/WolfKillCounterModSystem.cs:163-185 | with unique property names, each `KillCounts` property is loaded iff it is an integer or array, with the migrated record as its value |
| Migration.LoadKillCountsKeys | WolfKillCounter/WolfKillCounterModSystem.cs:168-184 | loaded kill counts carry only names that the `KillCounts` object holds |
| Migration.LoadLeaderboard | WolfKillCounter/WolfKillCounterModSystem.cs:155-158 | every loaded count is the integer value of a property with that name |
| Migration.LoadLeaderboardEntry | WolfKillCounter/WolfKillCounterModSystem.cs:150-160 | with unique property names, every leaderboard property is loaded with its integer value verbatim |
| Migration.LoadLeaderboardKeys | WolfKillCounter/WolfKillCounterModSystem.cs:150-160 | the loaded leaderboard holds exactly the `Leaderboard` object's names |
| Migration.Load | WolfKillCounter/WolfKillCounterModSystem.cs:133-185 | `TotalKills` and `ServerKillGoal` are taken from integer values only, with no range check, and otherwise stay at 0 and 100; the leaderboard holds exactly the `Leaderboard` object's names; the kill counts hold only names of the `KillCounts` object; a missing or non-object section loads as empty |
| Migration.LoadEmpty | WolfKillCounter/WolfKillCounterModSystem.cs:133-136 | an empty document loads as empty maps, total 0 and server goal 100 |
| Migration.LoadReadsSectionsIndependently | WolfKillCounter/WolfKillCounterModSystem.cs:149-189 | replacing `KillCounts` by any value does not change the loaded leaderboard, and replacing `Leaderboard` by any value the loader accepts (an object of integers or a non-object, which is skipped) does not change the loaded kill counts |
| Migration.LoadDoesNotRepairLeaderboard | WolfKillCounter/WolfKillCounterModSystem.cs:133-189 | kill counts with no leaderboard load as a player missing from the leaderboard; a legacy 3 loads as `{3, 50}` |
| Migration.LegacyCountMigration | WolfKillCounter/WolfKillCounterModSystem.cs:171-176 | a legacy count k ≥ 0 loads as kills k with a goal that is a multiple of 50 in [k, k + 50), equal to k iff k is a multiple of 50 |
| Migration.ArrayCountMigration | WolfKillCounter/WolfKillCounterModSystem.cs:178-184 | `[k, g, …]` loads as `{k, g}` verbatim; `[k]` loads as `{k, CalculateGoal(k)}`; `[]` loads as `{0, 0}` |
| Migration.Serialize | WolfKillCounter/WolfKillCounterModSystem.cs:203-211 | a saved record written as a document converts without error: its leaderboard holds integers only |
| Migration.LoadKillCountsOfArrays | WolfKillCounter/WolfKillCounterModSystem.cs:178-184 | two-element arrays written out load back as exactly the records they came from |
| Migration.LoadLeaderboardOfIntegers | WolfKillCounter/WolfKillCounterModSystem.cs:155-158 | a leaderboard written out loads back unchanged |
| Migration.LoadSerialized | WolfKillCounter/WolfKillCounterModSystem.cs:133-185 | a written record loads back field by field |
| Migration.LoadSavedSnapshot | WolfKillCounter/WolfKillCounterModSystem.cs:133-209 | loading what a save wrote reproduces the state exactly, for every state |
| Ranking.GetTopFive | WolfKillCounter/WolfKillCounterModSystem.cs:256-259 | min(5, n) entries in non-increasing count order; a sub-multiset of the input; the first has the highest count; no entry left out counts more than the last one kept; ties keep input order |
| Ranking.SortByCountDescending | WolfKillCounter/WolfKillCounterModSystem.cs:258 | `OrderByDescending` by count: the result never increases in count and is a permutation of its input |
| Ranking.SortByCountDescendingIsStable | WolfKillCounter/WolfKillCounterModSystem.cs:258 | for every count, the entries with that count appear in the same order as in the input |
| Ranking.SortedPrefixIsTop | WolfKillCounter/WolfKillCounterModSystem.cs:258 | `Take(k)` of the sorted leaderboard is its top k, in the senses listed for `GetTopFive` |
| Ranking.Enumerate | WolfKillCounter/WolfKillCounterModSystem.cs:258 | the dictionary's entries in enumeration order: entry i is the i-th name with its count, every entry is a name of the dictionary with its count, and when the order names each key exactly once the entries are as many as the keys and include every name with its count |
| Ranking.EnumerationLength | WolfKillCounter/WolfKillCounterModSystem.cs:258 | an order that lists each name of the dictionary once is as long as the dictionary |
| Ranking.TopFiveOfLeaderboard | WolfKillCounter/WolfKillCounterModSystem.cs:241 | for a dictionary enumerated once per name: min(5, n) entries, each a name with its count; no name counts more than the first entry; no name left out counts more than the last entry kept |
| CounterStore.WolfKillCounterModSystem.constructor | WolfKillCounter/WolfKillCounterModSystem.cs:37-42 | the store starts with empty maps, total 0 and server goal 0 |
| CounterStore.WolfKillCounterModSystem.OnEntityDeath | WolfKillCounter/WolfKillCounterModSystem.cs:83-122 | the new store and the outcome are exactly `RecordKill` of the old store |
| CounterStore.WolfKillCounterModSystem.CountPlayerKill | WolfKillCounter/WolfKillCounterModSystem.cs:97-106 | the attribution changes the store as `CountKill` says, and reports whether `Add` succeeded |
| CounterStore.WolfKillCounterModSystem.IncrementKills | WolfKillCounter/WolfKillCounterModSystem.cs:97-101 | a known player's array has its count raised by 1 in place, the leaderboard entry becomes that count, and no other player's array changes |
| CounterStore.WolfKillCounterModSystem.AddPlayer | WolfKillCounter/WolfKillCounterModSystem.cs:102-106 | a new player gets a fresh `{1, 50}` array; the leaderboard gets 1 unless the name is already there, in which case `Add` fails and the leaderboard is left as it was |
| CounterStore.WolfKillCounterModSystem.Escalate | WolfKillCounter/WolfKillCounterModSystem.cs:108-121 | the two goal checks change the store as `CheckGoals` says |
| CounterStore.WolfKillCounterModSystem.EscalatePlayer | WolfKillCounter/WolfKillCounterModSystem.cs:115-121 | a count equal to the goal doubles the goal in place and signals `CalculateGoal(count)`; otherwise nothing changes and nothing is signalled; other players' arrays are untouched |
| CounterStore.WolfKillCounterModSystem.LoadWolfKillData | WolfKillCounter/WolfKillCounterModSystem.cs:126-190 | the store becomes exactly `Load(doc)`, with a fresh array per player |
| CounterStore.WolfKillCounterModSystem.ReadLeaderboard | WolfKillCounter/WolfKillCounterModSystem.cs:150-160 | the loop leaves the leaderboard equal to `LoadLeaderboard` of the object |
| CounterStore.WolfKillCounterModSystem.ReadKillCounts | WolfKillCounter/WolfKillCounterModSystem.cs:163-189 | the loop leaves the kill counts equal to `LoadKillCounts` of the object, each array fresh and distinct |
| CounterStore.WolfKillCounterModSystem.PutRecord | WolfKillCounter/WolfKillCounterModSystem.cs:175 | one name gets a new `{kills, goal}` array; every other entry stays |
| CounterStore.WolfKillCounterModSystem.SaveWolfKillData | WolfKillCounter/WolfKillCounterModSystem.cs:201-213 | the saved record is `Snapshot` of the store, and the store is not changed |
| CounterStore.WolfKillCounterModSystem.ResetLeaderboardCommand | WolfKillCounter/WolfKillCounterModSystem.cs:226-232 | the store becomes `ResetLeaderboard` of the old store, and the snapshot it saves is of the reset store |

## Left out

- File and configuration I/O is left out: `File.ReadAllText`, `GetOrCreateDataPath`, `StoreModConfig`, and the different paths used for saving and loading. JSON text is not parsed. Loading starts from the parsed document, and saving ends at the record handed to the host. The document writer `Migration.Serialize` stands for the host's serialiser and lists properties in an unspecified order.
- Network broadcasts, chat-command registration and privileges, event subscription, logging and `Console.WriteLine` are left out. They are host plumbing. The two announcements are returned as values in `Outcome.Counted`. The null `serverChannel` is modelled only as the fault of `KillState.RecordKillAsWritten`.
- Message text is left out: `PrintList`, `ServerKillGoal`, `PlayerKillGoal` and `ListWolfKills`. This includes the `int[]` interpolated at line 250. It is display only. `GetTopFive`, which `PrintList` uses, is modelled.
- Host entity types are left out. The test `Code.Path.Contains("wolf")` becomes a boolean input. Resolving the killer from `SourceEntity` or `CauseEntity` becomes an optional name.
- 32-bit integers are not modelled. Counts are unbounded. `++` and `*= 2` do not wrap. The `(int)` casts of `long` at lines 141 and 146 are the identity, and `ToObject<int>` never overflows.
- Migration.WellFormed: this precondition requires every leaderboard value to be a JSON integer. `ToObject<int>` at line 157 also converts floats, numeric strings and booleans, and it throws on other values. The model deliberately excludes both kinds of value. Array items are integers by the type of `Json.Token.Array`, so `ToObject<int[]>` at line 180 is modelled only for integer items.
- Dictionary enumeration order is not part of a `map`. `GetTopFive` takes the leaderboard as a sequence in enumeration order (`Ranking.Enumerate`). JSON objects are sequences of properties, and a later property overwrites an earlier one with the same name.
- The saved record aliases the live dictionaries in the source. The model copies them into a value, because the host writes the record out at once.
- An exception thrown from the event handler is modelled as a fault outcome that leaves behind the partly updated state. What the host does with the exception is not modelled. A document that is `null` or whose file is missing is not modelled either.
- `Migration.LoadKillCountsEntry`, `Migration.LoadLeaderboardEntry`: these state per-property results only for objects whose property names are unique, as parsed JSON objects are. `LoadKillCounts` and `LoadLeaderboard` themselves also handle repeated names, with the last one winning.
- KillState.KillKeepsGoalsAhead: proved for the intended handler `RecordKill`, whose broadcast returns. For the handler as written it fails (`KillState.AsWrittenBreaksGoalsAhead`, "## Findings").
- KillState.PlayerAnnouncementReportsReachedGoal: the doubled stored goal holds for the intended handler. As written, the broadcast throws first and the goal stays (`KillState.AsWrittenDiffersOnlyAtGoals`, "## Findings").
- KillState.CheckGoals: models the intended goal checks, in which `BroadcastPacket` returns. As written, the broadcast on the unassigned `serverChannel` throws at lines 111 and 119 before either goal doubles; `KillState.CheckGoalsAsWritten` models that.
- KillState.RecordKill: models the evidently intended handler, in which `serverChannel` is assigned and `BroadcastPacket` returns. The code never assigns the field. `KillState.RecordKillAsWritten` models the code as it is.
- CounterStore.WolfKillCounterModSystem.OnEntityDeath: follows `RecordKill`, the intended handler, so it doubles a reached goal where the code as written throws. See "## Findings".
- CounterStore.WolfKillCounterModSystem.Escalate: doubles a reached server goal where the code as written throws at the broadcast. See "## Findings".
- CounterStore.WolfKillCounterModSystem.EscalatePlayer: doubles a reached player goal where the code as written throws at the broadcast. See "## Findings".

## Findings

| source | as written | input that shows it | evidently intended | confidence | as-written member | corrected member |
|---|---|---|---|---|---|---|
| WolfKillCounter/WolfKillCounterModSystem.cs:32, :111, :119 | `serverChannel` is declared but never assigned. `BroadcastPacket` at :111 and :119 is therefore called on null. It throws before `serverKillGoal *= 2` at :112 and before `[1] *= 2` at :120. A reached server goal also skips the player check. | a wolf kill by a player stored as `{49, 50}`: the record ends at `{50, 50}` and the handler throws | the announcement is broadcast and the reached goal doubled | high; not executed | KillState.RecordKillAsWritten (KillState.AsWrittenBreaksGoalsAhead) | KillState.RecordKill (KillState.KillKeepsGoalsAhead) |
