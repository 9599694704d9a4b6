/** The mod system's in-memory store: the four fields that `OnEntityDeath`,
    `LoadWolfKillData`, `SaveWolfKillData` and `ResetLeaderboardCommand`
    update in place, each method proved against the value-level model. */
module CounterStore {
  import opened Wrappers
  import opened Goals
  import opened Json
  import opened KillState
  import opened Migration

  class WolfKillCounterModSystem {
    /** Each player's `int[] { kills, goal }`, updated in place. */
    var wolfKillCount: map<string, array<int>>
    var currentLeaderboard: map<string, int>
    var totalWolfKillCount: int
    var serverKillGoal: int

    /** Every entry is a two-element array of its own. */
    ghost predicate Valid()
      reads this
    {
      && (forall n :: n in wolfKillCount ==> wolfKillCount[n].Length == 2)
      && (forall n, m :: n in wolfKillCount && m in wolfKillCount && n != m ==> wolfKillCount[n] != wolfKillCount[m])
    }

    /** The per-player arrays read as records. */
    ghost function KillCounts(): map<string, KillRecord>
      reads this, wolfKillCount.Values
      requires Valid()
    {
      map n | n in wolfKillCount :: KillRecord(wolfKillCount[n][0], wolfKillCount[n][1])
    }

    /** The store as a value. */
    ghost function Model(): State
      reads this, wolfKillCount.Values
      requires Valid()
    {
      State(KillCounts(), currentLeaderboard, totalWolfKillCount, serverKillGoal)
    }

    /** The field initialisers: empty maps, and both counters at 0. */
    constructor ()
      ensures Valid() && Model() == State(map[], map[], 0, 0)
    {
      wolfKillCount := map[];
      currentLeaderboard := map[];
      totalWolfKillCount := 0;
      serverKillGoal := 0;
    }

    /** The counting part of `OnEntityDeath`: the entity's kind and the
        killing player's name (none when no player is behind the death) are
        given by the host. */
    method OnEntityDeath(isWolf: bool, killer: Option<string>) returns (outcome: Outcome)
      requires Valid()
      modifies this, wolfKillCount.Values
      ensures Valid()
      ensures (Model(), outcome) == RecordKill(old(Model()), isWolf, killer)
    {
      ghost var before := Model();
      if !isWolf {
        return NotAWolf;
      }
      totalWolfKillCount := totalWolfKillCount + 1;
      assert KillCounts() == before.killCounts;
      if killer.None? {
        // `wolfKillCount.ContainsKey(null)` throws
        return NullKillerFault;
      }
      var playerName := killer.value;
      var added := CountPlayerKill(playerName);
      if !added {
        return DuplicateLeaderboardFault;
      }
      outcome := Escalate(playerName);
    }

    /** The attribution in `OnEntityDeath`: increment a known player's
        kills and copy them to the leaderboard, or add a new player; `false`
        when `currentLeaderboard.Add` throws. */
    method CountPlayerKill(playerName: string) returns (added: bool)
      requires Valid()
      modifies this`wolfKillCount, this`currentLeaderboard, wolfKillCount.Values
      ensures Valid() && playerName in wolfKillCount
      ensures wolfKillCount[playerName] in old(wolfKillCount.Values) || fresh(wolfKillCount[playerName])
      ensures (Model(), added) == CountKill(old(Model()), playerName)
    {
      if playerName in wolfKillCount {
        ghost var before := Model();
        IncrementKills(playerName);
        assert Model() == CountKill(before, playerName).0;
        added := true;
      } else {
        added := AddPlayer(playerName);
      }
    }

    /** A known player: `wolfKillCount[playerName][0]++` and the leaderboard
        entry set to the new count. */
    method IncrementKills(playerName: string)
      requires Valid() && playerName in wolfKillCount
      modifies this`currentLeaderboard, wolfKillCount[playerName]
      ensures Valid() && playerName in wolfKillCount
      ensures wolfKillCount == old(wolfKillCount) && totalWolfKillCount == old(totalWolfKillCount)
      ensures serverKillGoal == old(serverKillGoal)
      ensures var k := old(KillCounts())[playerName];
              && KillCounts() == old(KillCounts())[playerName := k.(kills := k.kills + 1)]
              && currentLeaderboard == old(currentLeaderboard)[playerName := k.kills + 1]
    {
      ghost var before := Model();
      var record := wolfKillCount[playerName];
      record[0] := record[0] + 1;
      currentLeaderboard := currentLeaderboard[playerName := record[0]];
      forall n | n in wolfKillCount && n != playerName ensures KillCounts()[n] == before.killCounts[n] {
        assert wolfKillCount[n] != record;
      }
      assert KillCounts() == before.killCounts[playerName := KillRecord(record[0], record[1])];
    }

    /** A new player: `{ 1, 50 }` added, then the leaderboard entry, whose
        `Add` throws when the name is already there. */
    method AddPlayer(playerName: string) returns (added: bool)
      requires Valid() && playerName !in wolfKillCount
      modifies this`wolfKillCount, this`currentLeaderboard
      ensures Valid() && playerName in wolfKillCount && fresh(wolfKillCount[playerName])
      ensures (Model(), added) == CountKill(old(Model()), playerName)
    {
      ghost var before := Model();
      PutRecord(playerName, 1, DefaultGoal);
      if playerName in currentLeaderboard {
        assert Model() == CountKill(before, playerName).0;
        return false;
      }
      currentLeaderboard := currentLeaderboard[playerName := 1];
      assert Model() == CountKill(before, playerName).0;
      added := true;
    }

    /** The two goal checks at the end of `OnEntityDeath`, server first. */
    method Escalate(playerName: string) returns (outcome: Outcome)
      requires Valid() && playerName in wolfKillCount
      modifies this`serverKillGoal, wolfKillCount[playerName]
      ensures Valid()
      ensures (Model(), outcome) == CheckGoals(old(Model()), playerName)
    {
      ghost var before := Model();
      var serverSignal := None;
      if totalWolfKillCount == serverKillGoal {
        serverSignal := Some(serverKillGoal * 2);
        serverKillGoal := serverKillGoal * 2;
      }
      assert KillCounts() == before.killCounts;
      var playerSignal := EscalatePlayer(playerName);
      outcome := Counted(serverSignal, playerSignal);
      assert outcome == CheckGoals(before, playerName).1;
      assert Model() == CheckGoals(before, playerName).0;
    }

    /** The player check: a count equal to the goal doubles the goal, and the
        announcement carries `CalculateGoal` of the count. */
    method EscalatePlayer(playerName: string) returns (signal: Option<int>)
      requires Valid() && playerName in wolfKillCount
      modifies wolfKillCount[playerName]
      ensures Valid()
      ensures var rec := old(KillCounts())[playerName];
              && signal == (if rec.kills == rec.goal then Some(CalculateGoal(rec.kills)) else None)
              && KillCounts() == old(KillCounts())[playerName := rec.(goal := if rec.kills == rec.goal then rec.goal * 2 else rec.goal)]
    {
      ghost var before := KillCounts();
      var record := wolfKillCount[playerName];
      signal := None;
      if record[0] == record[1] {
        var newGoal := CalculateGoal(record[0]);
        signal := Some(newGoal);
        record[1] := record[1] * 2;
        forall n | n in wolfKillCount && n != playerName ensures KillCounts()[n] == before[n] {
          assert wolfKillCount[n] != record;
        }
      }
      assert KillCounts() == before[playerName := KillRecord(record[0], record[1])];
    }

    /** `LoadWolfKillData` on the already-parsed document: defaults first,
        then the scalars, the leaderboard and the kill counts in turn, each
        migrated record a new array. */
    method LoadWolfKillData(doc: Document)
      requires WellFormed(doc)
      modifies this
      ensures Valid()
      ensures Model() == Load(doc)
      ensures forall n :: n in wolfKillCount ==> fresh(wolfKillCount[n])
    {
      wolfKillCount := map[];
      currentLeaderboard := map[];
      totalWolfKillCount := 0;
      serverKillGoal := InitialServerGoal;

      if "TotalKills" in doc && doc["TotalKills"].Integer? {
        totalWolfKillCount := doc["TotalKills"].value;
      }
      if "ServerKillGoal" in doc && doc["ServerKillGoal"].Integer? {
        serverKillGoal := doc["ServerKillGoal"].value;
      }

      ReadLeaderboard(ObjectFields(doc, "Leaderboard"));
      ReadKillCounts(ObjectFields(doc, "KillCounts"));
    }

    /** The `foreach` over the `Leaderboard` object. */
    method ReadLeaderboard(fields: seq<(string, Token)>)
      requires IntegerValues(fields) && currentLeaderboard == map[]
      modifies this`currentLeaderboard
      ensures currentLeaderboard == LoadLeaderboard(fields)
    {
      for i := 0 to |fields|
        invariant currentLeaderboard == LoadLeaderboard(fields[..i])
      {
        assert fields[..i + 1][..i] == fields[..i];
        currentLeaderboard := currentLeaderboard[fields[i].0 := fields[i].1.value];
      }
      assert fields[..|fields|] == fields;
    }

    /** The `foreach` over the `KillCounts` object, migrating each entry. */
    method ReadKillCounts(fields: seq<(string, Token)>)
      requires wolfKillCount == map[]
      modifies this`wolfKillCount
      ensures Valid()
      ensures KillCounts() == LoadKillCounts(fields)
      ensures forall n :: n in wolfKillCount ==> fresh(wolfKillCount[n])
    {
      for i := 0 to |fields|
        invariant Valid()
        invariant forall n :: n in wolfKillCount ==> fresh(wolfKillCount[n])
        invariant KillCounts() == LoadKillCounts(fields[..i])
      {
        assert fields[..i + 1][..i] == fields[..i];
        var (name, value) := fields[i];
        if value.Integer? {
          // the old format: just a kill count
          var kills := value.value;
          var nextGoal := CalculateGoal(kills);
          PutRecord(name, kills, nextGoal);
        } else if value.Array? {
          // the new format: [kills, goal]
          var values := value.items;
          var kills := if |values| > 0 then values[0] else 0;
          var nextGoal := if |values| > 1 then values[1] else CalculateGoal(kills);
          PutRecord(name, kills, nextGoal);
        }
      }
      assert fields[..|fields|] == fields;
    }

    /** `wolfKillCount[name] = new int[] { kills, goal }`. */
    method PutRecord(name: string, kills: int, goal: int)
      requires Valid()
      modifies this`wolfKillCount
      ensures Valid()
      ensures KillCounts() == old(KillCounts())[name := KillRecord(kills, goal)]
      ensures name in wolfKillCount && fresh(wolfKillCount[name])
      ensures forall n :: n in wolfKillCount && n != name ==> n in old(wolfKillCount) && wolfKillCount[n] == old(wolfKillCount[n])
    {
      var record := new int[] [kills, goal];
      wolfKillCount := wolfKillCount[name := record];
    }

    /** `SaveWolfKillData`'s snapshot: each array copied out as `[kills, goal]`. */
    method SaveWolfKillData() returns (data: WolfKillData)
      requires Valid()
      ensures data == Snapshot(Model())
    {
      var arrays := map n | n in wolfKillCount :: wolfKillCount[n][..];
      assert arrays == Snapshot(Model()).KillCounts by {
        forall n | n in arrays ensures arrays[n] == [wolfKillCount[n][0], wolfKillCount[n][1]] {
          assert arrays[n] == wolfKillCount[n][..];
        }
      }
      data := WolfKillData(arrays, currentLeaderboard, totalWolfKillCount, serverKillGoal);
    }

    /** `ResetLeaderboardCommand`: clears the leaderboard, then saves. */
    method ResetLeaderboardCommand() returns (saved: WolfKillData)
      requires Valid()
      modifies this`currentLeaderboard
      ensures Valid()
      ensures Model() == ResetLeaderboard(old(Model()))
      ensures saved == Snapshot(Model())
    {
      currentLeaderboard := map[];
      saved := SaveWolfKillData();
    }
  }
}
