/** `LoadWolfKillData`'s migration of a parsed save document of any vintage
    into the store's state, and the writing side of the round trip. */
module Migration {
  import opened Wrappers
  import opened Goals
  import opened Json
  import opened KillState

  /** How one `KillCounts` property is migrated: a bare integer is the old
      format and gets the rounded goal; an array is `[kills, goal]`, either
      element defaulting when missing; any other kind of value is skipped. */
  function MigrateKillCount(t: Token): (r: Option<KillRecord>)
    ensures r.Some? <==> t.Integer? || t.Array?
  {
    match t
    case Integer(k) => Some(KillRecord(k, CalculateGoal(k)))
    case Array(values) =>
      var kills := if |values| > 0 then values[0] else 0;
      Some(KillRecord(kills, if |values| > 1 then values[1] else CalculateGoal(kills)))
    case _ => None
  }

  /** The `foreach` over the `KillCounts` object: each migrated property is
      written over whatever an earlier one left under its name. */
  function LoadKillCounts(fields: seq<(string, Token)>): (m: map<string, KillRecord>)
    // every loaded record is the migration of some property of that name
    ensures forall n :: n in m ==>
              exists i :: 0 <= i < |fields| && fields[i].0 == n && MigrateKillCount(fields[i].1) == Some(m[n])
  {
    if fields == [] then map[]
    else
      var m := LoadKillCounts(fields[..|fields| - 1]);
      var (name, t) := fields[|fields| - 1];
      match MigrateKillCount(t)
      case Some(r) => m[name := r]
      case None => m
  }

  /** Every leaderboard value converts to an `int`. */
  predicate IntegerValues(fields: seq<(string, Token)>) {
    forall i :: 0 <= i < |fields| ==> fields[i].1.Integer?
  }

  /** The `foreach` over the `Leaderboard` object: values copied verbatim. */
  function LoadLeaderboard(fields: seq<(string, Token)>): (m: map<string, int>)
    requires IntegerValues(fields)
    // every loaded count is the value of some property of that name
    ensures forall n :: n in m ==> exists i :: 0 <= i < |fields| && fields[i] == (n, Integer(m[n]))
  {
    if fields == [] then map[]
    else LoadLeaderboard(fields[..|fields| - 1])[fields[|fields| - 1].0 := fields[|fields| - 1].1.value]
  }

  /** The document converts without an exception: a leaderboard object holds
      integers only. */
  predicate WellFormed(doc: Document) {
    "Leaderboard" in doc && doc["Leaderboard"].Object? ==> IntegerValues(doc["Leaderboard"].fields)
  }

  /** A top-level value is used only when it is an integer. */
  function IntegerOr(doc: Document, key: string, default: int): int {
    if key in doc && doc[key].Integer? then doc[key].value else default
  }

  /** The properties of a top-level object, none if it is absent or not an object. */
  function ObjectFields(doc: Document, key: string): seq<(string, Token)> {
    if key in doc && doc[key].Object? then doc[key].fields else []
  }

  /** The state `LoadWolfKillData` leaves behind: defaults first, then the two
      integer scalars, the leaderboard and the migrated kill counts, each read
      independently of the others and with no repair afterwards. */
  function Load(doc: Document): (s: State)
    requires WellFormed(doc)
    // the scalars are taken from integer values only, with no range check, and default to 0 and 100
    ensures s.totalKills == 0 || ("TotalKills" in doc && doc["TotalKills"] == Integer(s.totalKills))
    ensures s.serverGoal == InitialServerGoal || ("ServerKillGoal" in doc && doc["ServerKillGoal"] == Integer(s.serverGoal))
    ensures "TotalKills" in doc && doc["TotalKills"].Integer? ==> s.totalKills == doc["TotalKills"].value
    ensures "ServerKillGoal" in doc && doc["ServerKillGoal"].Integer? ==> s.serverGoal == doc["ServerKillGoal"].value
    // the leaderboard holds exactly the `Leaderboard` object's names, the kill counts only `KillCounts`' names
    ensures s.leaderboard.Keys == Keys(ObjectFields(doc, "Leaderboard"))
    ensures s.killCounts.Keys <= Keys(ObjectFields(doc, "KillCounts"))
    // a missing or non-object section loads as empty
    ensures ObjectFields(doc, "KillCounts") == [] ==> s.killCounts == map[]
    ensures ObjectFields(doc, "Leaderboard") == [] ==> s.leaderboard == map[]
  {
    LoadLeaderboardKeys(ObjectFields(doc, "Leaderboard"));
    LoadKillCountsKeys(ObjectFields(doc, "KillCounts"));
    State(LoadKillCounts(ObjectFields(doc, "KillCounts")),
          LoadLeaderboard(ObjectFields(doc, "Leaderboard")),
          IntegerOr(doc, "TotalKills", 0),
          IntegerOr(doc, "ServerKillGoal", InitialServerGoal))
  }

  /** With property names unique, a `KillCounts` property is loaded exactly
      when it is an integer or an array, and as `MigrateKillCount` says. */
  lemma {:induction false} LoadKillCountsEntry(fields: seq<(string, Token)>, i: int)
    requires DistinctKeys(fields) && 0 <= i < |fields|
    ensures var m := LoadKillCounts(fields);
            var r := MigrateKillCount(fields[i].1);
            && (fields[i].0 in m <==> r.Some?)
            && (r.Some? ==> m[fields[i].0] == r.value)
  {
    if i < |fields| - 1 {
      var init := fields[..|fields| - 1];
      assert init[i] == fields[i] && fields[|fields| - 1].0 != fields[i].0;
      LoadKillCountsEntry(init, i);
    } else {
      LoadKillCountsLast(fields);
    }
  }

  /** The last property's name is new to the ones before it, so it ends up
      under its own migrated value. */
  lemma LoadKillCountsLast(fields: seq<(string, Token)>)
    requires DistinctKeys(fields) && |fields| > 0
    ensures var last := fields[|fields| - 1];
            var r := MigrateKillCount(last.1);
            && (last.0 in LoadKillCounts(fields) <==> r.Some?)
            && (r.Some? ==> LoadKillCounts(fields)[last.0] == r.value)
  {
    var init := fields[..|fields| - 1];
    var last := fields[|fields| - 1];
    forall j | 0 <= j < |init| ensures init[j].0 != last.0 {
      assert init[j] == fields[j];
    }
    LoadKillCountsKeys(init);
    assert last.0 !in LoadKillCounts(init);
  }

  /** Loaded kill counts come from the document's own property names only. */
  lemma {:induction false} LoadKillCountsKeys(fields: seq<(string, Token)>)
    ensures LoadKillCounts(fields).Keys <= Keys(fields)
  {
    if fields != [] {
      var init := fields[..|fields| - 1];
      LoadKillCountsKeys(init);
      forall name | name in Keys(init) ensures name in Keys(fields) {
        var j :| 0 <= j < |init| && init[j].0 == name;
        assert fields[j] == init[j];
      }
    }
  }

  /** With property names unique, the leaderboard is the object copied verbatim. */
  lemma {:induction false} LoadLeaderboardEntry(fields: seq<(string, Token)>, i: int)
    requires IntegerValues(fields) && DistinctKeys(fields) && 0 <= i < |fields|
    ensures var m := LoadLeaderboard(fields);
            fields[i].0 in m && m[fields[i].0] == fields[i].1.value
  {
    var init := fields[..|fields| - 1];
    if i < |fields| - 1 {
      assert init[i] == fields[i];
      LoadLeaderboardEntry(init, i);
    }
  }

  /** The leaderboard holds exactly the object's property names. */
  lemma {:induction false} LoadLeaderboardKeys(fields: seq<(string, Token)>)
    requires IntegerValues(fields)
    ensures LoadLeaderboard(fields).Keys == Keys(fields)
  {
    if fields != [] {
      var init := fields[..|fields| - 1];
      LoadLeaderboardKeys(init);
      assert Keys(fields) == Keys(init) + {fields[|fields| - 1].0} by {
        forall name | name in Keys(fields) ensures name in Keys(init) + {fields[|fields| - 1].0} {
          var j :| 0 <= j < |fields| && fields[j].0 == name;
          if j < |init| { assert init[j] == fields[j]; }
        }
        forall name | name in Keys(init) ensures name in Keys(fields) {
          var j :| 0 <= j < |init| && init[j].0 == name;
          assert fields[j] == init[j];
        }
      }
    }
  }

  /** An empty document loads as the empty store with a server goal of 100. */
  lemma LoadEmpty()
    ensures Load(map[]) == State(map[], map[], 0, InitialServerGoal)
  {
  }

  /** The leaderboard and the kill counts are read independently: replacing
      either top-level value leaves what is loaded from the other untouched. */
  lemma LoadReadsSectionsIndependently(doc: Document, t: Token)
    requires WellFormed(doc)
    ensures Load(doc["KillCounts" := t]).leaderboard == Load(doc).leaderboard
    ensures WellFormed(doc["Leaderboard" := t]) ==>
              Load(doc["Leaderboard" := t]).killCounts == Load(doc).killCounts
  {
    assert ObjectFields(doc["KillCounts" := t], "Leaderboard") == ObjectFields(doc, "Leaderboard");
    assert ObjectFields(doc["Leaderboard" := t], "KillCounts") == ObjectFields(doc, "KillCounts");
  }

  /** No repair runs after loading: kill counts without a leaderboard load
      as players absent from the leaderboard. */
  lemma LoadDoesNotRepairLeaderboard()
    ensures var s := Load(map["KillCounts" := Object([("wolfy", Integer(3))])]);
            s.killCounts == map["wolfy" := KillRecord(3, 50)] && s.leaderboard == map[]
  {
  }

  /** A legacy integer count gets the rounded goal, so a count on a multiple
      of 50 (0 included) loads with its goal already reached. */
  lemma LegacyCountMigration(k: int)
    requires k >= 0
    ensures var r := MigrateKillCount(Integer(k)).value;
            && r.kills == k && r.goal % DefaultGoal == 0 && k <= r.goal < k + DefaultGoal
            && (r.goal == k <==> k % DefaultGoal == 0)
  {
  }

  /** The array format keeps a stored goal as it is, even below the count or
      below the rounded goal, and defaults only missing elements. */
  lemma ArrayCountMigration(values: seq<int>)
    ensures |values| >= 2 ==> MigrateKillCount(Array(values)) == Some(KillRecord(values[0], values[1]))
    ensures |values| == 1 ==> MigrateKillCount(Array(values)) == Some(KillRecord(values[0], CalculateGoal(values[0])))
    ensures values == [] ==> MigrateKillCount(Array(values)) == Some(KillRecord(0, 0))
  {
    if values == [] {
      CalculateGoalBoundaries();
    }
  }

  /** The token an array value is written as. */
  function ArrayToken(values: seq<int>): Token { Array(values) }

  /** The token an integer value is written as. */
  function IntegerToken(value: int): Token { Integer(value) }

  /** The properties of a dictionary written as an object, in some order. */
  ghost function Fields<V>(m: map<string, V>, encode: V -> Token): (fields: seq<(string, Token)>)
    ensures |fields| == |m|
    ensures forall i :: 0 <= i < |fields| ==> fields[i].0 in m && fields[i].1 == encode(m[fields[i].0])
    decreases |m|
  {
    if |m| == 0 then []
    else
      var name :| name in m;
      assert |m - {name}| == |m| - 1 by { assert (m - {name}).Keys == m.Keys - {name}; }
      Fields(m - {name}, encode) + [(name, encode(m[name]))]
  }

  /** The last property written is one of the dictionary's, after all the others. */
  lemma FieldsLast<V>(m: map<string, V>, encode: V -> Token)
    requires |m| > 0
    ensures var fields := Fields(m, encode);
            fields[..|fields| - 1] == Fields(m - {fields[|fields| - 1].0}, encode)
  {
  }

  /** The saved record written out as a document. */
  ghost function Serialize(d: WolfKillData): (doc: Document)
    ensures WellFormed(doc)
  {
    map["KillCounts" := Object(Fields(d.KillCounts, ArrayToken)),
        "Leaderboard" := Object(Fields(d.Leaderboard, IntegerToken)),
        "TotalKills" := Integer(d.TotalKills),
        "ServerKillGoal" := Integer(d.ServerKillGoal)]
  }

  /** Two-element arrays read as `{ kills, goal }` records. */
  function Records(m: map<string, seq<int>>): map<string, KillRecord>
    requires forall name :: name in m ==> |m[name]| == 2
  {
    map name | name in m :: KillRecord(m[name][0], m[name][1])
  }

  /** Reading one more array adds its record under its name. */
  lemma RecordsOfUpdate(m: map<string, seq<int>>, name: string)
    requires forall n :: n in m ==> |m[n]| == 2
    requires name in m
    ensures Records(m) == Records(m - {name})[name := KillRecord(m[name][0], m[name][1])]
  {
    var rest := m - {name};
    assert Records(m).Keys == Records(rest).Keys + {name};
  }

  /** Two-element arrays load back as the records they were written from. */
  lemma {:induction false} LoadKillCountsOfArrays(m: map<string, seq<int>>)
    requires forall name :: name in m ==> |m[name]| == 2
    ensures LoadKillCounts(Fields(m, ArrayToken)) == Records(m)
  {
    var fields := Fields(m, ArrayToken);
    if |m| > 0 {
      var last := fields[|fields| - 1];
      FieldsLast(m, ArrayToken);
      LoadKillCountsOfArrays(m - {last.0});
      assert last.1 == Array(m[last.0]);
      RecordsOfUpdate(m, last.0);
    }
  }

  /** Integers load back as the leaderboard they were written from. */
  lemma {:induction false} LoadLeaderboardOfIntegers(m: map<string, int>)
    ensures IntegerValues(Fields(m, IntegerToken))
    ensures LoadLeaderboard(Fields(m, IntegerToken)) == m
  {
    var fields := Fields(m, IntegerToken);
    if |m| > 0 {
      var last := fields[|fields| - 1];
      var rest := m - {last.0};
      FieldsLast(m, IntegerToken);
      LoadLeaderboardOfIntegers(rest);
      assert last.1 == Integer(m[last.0]);
      assert LoadLeaderboard(fields) == rest[last.0 := m[last.0]];
      PutBack(m, last.0);
    }
  }

  /** Removing a name and writing its value back restores the dictionary. */
  lemma PutBack<V>(m: map<string, V>, name: string)
    requires name in m
    ensures (m - {name})[name := m[name]] == m
  {
    assert ((m - {name})[name := m[name]]).Keys == m.Keys;
  }

  /** Reading each saved `[kills, goal]` array back gives the records saved. */
  lemma SnapshotArraysReadBack(s: State)
    ensures var arrays := Snapshot(s).KillCounts;
            Records(arrays) == s.killCounts
  {
    var arrays := Snapshot(s).KillCounts;
    var back := Records(arrays);
    forall name | name in back ensures back[name] == s.killCounts[name] {
      assert arrays[name] == [s.killCounts[name].kills, s.killCounts[name].goal];
    }
    assert back.Keys == s.killCounts.Keys;
  }

  /** What loading looks up in a written record. */
  lemma SerializeLookups(d: WolfKillData)
    ensures var doc := Serialize(d);
            && ObjectFields(doc, "KillCounts") == Fields(d.KillCounts, ArrayToken)
            && ObjectFields(doc, "Leaderboard") == Fields(d.Leaderboard, IntegerToken)
            && IntegerOr(doc, "TotalKills", 0) == d.TotalKills
            && IntegerOr(doc, "ServerKillGoal", InitialServerGoal) == d.ServerKillGoal
  {
    var doc := Serialize(d);
    assert doc["KillCounts"] == Object(Fields(d.KillCounts, ArrayToken));
    assert doc["Leaderboard"] == Object(Fields(d.Leaderboard, IntegerToken));
    assert doc["TotalKills"] == Integer(d.TotalKills);
    assert doc["ServerKillGoal"] == Integer(d.ServerKillGoal);
  }

  /** A written record loads back field by field. */
  lemma LoadSerialized(d: WolfKillData)
    requires forall name :: name in d.KillCounts ==> |d.KillCounts[name]| == 2
    ensures Load(Serialize(d)) == State(
              Records(d.KillCounts), d.Leaderboard, d.TotalKills, d.ServerKillGoal)
  {
    var doc := Serialize(d);
    var counts := Fields(d.KillCounts, ArrayToken);
    var board := Fields(d.Leaderboard, IntegerToken);
    SerializeLookups(d);
    assert LoadKillCounts(counts) == Records(d.KillCounts) by {
      LoadKillCountsOfArrays(d.KillCounts);
    }
    assert LoadLeaderboard(board) == d.Leaderboard by {
      LoadLeaderboardOfIntegers(d.Leaderboard);
    }
  }

  /** Loading what a save wrote reproduces the state exactly: every record
      goes out as a `[kills, goal]` array, which the array branch reads back
      verbatim, and the leaderboard and both scalars are copied as they are. */
  lemma LoadSavedSnapshot(s: State)
    ensures Load(Serialize(Snapshot(s))) == s
  {
    LoadSerialized(Snapshot(s));
    SnapshotArraysReadBack(s);
  }
}
