/** The counter store's state as a value, the saved record, and the effect of
    one entity death on that state (the counting part of `OnEntityDeath`). */
module KillState {
  import opened Wrappers
  import opened Goals

  /** A player's `int[] { kills, goal }` entry, as a value. */
  datatype KillRecord = KillRecord(kills: int, goal: int)

  /** The four fields of the mod system: `wolfKillCount`, `currentLeaderboard`,
      `totalWolfKillCount` and `serverKillGoal`. */
  datatype State = State(
    killCounts: map<string, KillRecord>,
    leaderboard: map<string, int>,
    totalKills: int,
    serverGoal: int)

  /** The server goal that a load starts from (and the record's default). */
  const InitialServerGoal: int := 100

  /** The saved record `WolfKillData`: per-player `[kills, goal]` arrays, the
      leaderboard, the total and the server goal. */
  datatype WolfKillData = WolfKillData(
    KillCounts: map<string, seq<int>>,
    Leaderboard: map<string, int>,
    TotalKills: int,
    ServerKillGoal: int)

  /** The snapshot that `SaveWolfKillData` hands to the host for writing. */
  function Snapshot(s: State): (d: WolfKillData)
    ensures d.KillCounts.Keys == s.killCounts.Keys
    ensures forall n :: n in d.KillCounts ==> d.KillCounts[n] == [s.killCounts[n].kills, s.killCounts[n].goal]
    ensures d.Leaderboard == s.leaderboard && d.TotalKills == s.totalKills && d.ServerKillGoal == s.serverGoal
  {
    WolfKillData(
      map n | n in s.killCounts :: [s.killCounts[n].kills, s.killCounts[n].goal],
      s.leaderboard, s.totalKills, s.serverGoal)
  }

  /** What one entity death yields. `Counted` carries the two announcements
      that may be broadcast: the new server goal, and the goal value that the
      player announcement reports. The faults are the exceptions the handler
      raises part-way through the update. */
  datatype Outcome =
    | NotAWolf
    | Counted(serverGoalReached: Option<int>, playerGoalReached: Option<int>)
    | NullKillerFault             // `ContainsKey(null)` throws
    | DuplicateLeaderboardFault   // `currentLeaderboard.Add` finds the name already there
    | BroadcastFault              // `BroadcastPacket` called on the unassigned `serverChannel`

  /** The record a kill by `name` increments: the stored one, or for an
      unknown player the `{ 1, 50 }` entry seen as `{ 0, 50 }` plus one kill. */
  function Prior(s: State, name: string): KillRecord {
    if name in s.killCounts then s.killCounts[name] else KillRecord(0, DefaultGoal)
  }

  /** The two exact-equality goal checks, server first, after the player's
      kill has been counted. The player announcement reports
      `CalculateGoal(kills)` while the stored goal is doubled. */
  function CheckGoals(s: State, name: string): (r: (State, Outcome))
    requires name in s.killCounts
    ensures var rec := s.killCounts[name];
            var serverReached := s.totalKills == s.serverGoal;
            var playerReached := rec.kills == rec.goal;
            // the server goal doubles exactly when the total has landed on it
            && r.0.serverGoal == (if serverReached then 2 * s.serverGoal else s.serverGoal)
            // the player's goal doubles exactly when the count has landed on it; no other record changes
            && r.0.killCounts == s.killCounts[name := KillRecord(rec.kills, if playerReached then 2 * rec.goal else rec.goal)]
            && r.0.leaderboard == s.leaderboard && r.0.totalKills == s.totalKills
            && r.1 == Counted(if serverReached then Some(2 * s.serverGoal) else None,
                              if playerReached then Some(CalculateGoal(rec.kills)) else None)
  {
    var serverReached := s.totalKills == s.serverGoal;
    var serverSignal := if serverReached then Some(s.serverGoal * 2) else None;
    var s1 := if serverReached then s.(serverGoal := s.serverGoal * 2) else s;
    var rec := s1.killCounts[name];
    if rec.kills == rec.goal then
      (s1.(killCounts := s1.killCounts[name := rec.(goal := rec.goal * 2)]),
       Counted(serverSignal, Some(CalculateGoal(rec.kills))))
    else
      (s1, Counted(serverSignal, None))
  }

  /** The attribution of a counted kill to a named player: an existing
      record is incremented and the leaderboard entry set to the new count;
      a new player gets `{ 1, 50 }` and a leaderboard entry of 1, unless the
      leaderboard already holds the name, in which case `Add` fails (`false`)
      after the record has been added. */
  function CountKill(s: State, name: string): (r: (State, bool))
    // `Add` fails only for a new name that the leaderboard already holds
    ensures r.1 <==> name in s.killCounts || name !in s.leaderboard
    // the player's record gains one kill, starting from `{ 0, 50 }` for a new player
    ensures r.0.killCounts == s.killCounts[name := KillRecord(Prior(s, name).kills + 1, Prior(s, name).goal)]
    ensures r.0.leaderboard == if r.1 then s.leaderboard[name := Prior(s, name).kills + 1] else s.leaderboard
    ensures r.0.totalKills == s.totalKills && r.0.serverGoal == s.serverGoal
  {
    if name in s.killCounts then
      var k := s.killCounts[name].kills + 1;
      (s.(killCounts := s.killCounts[name := s.killCounts[name].(kills := k)],
          leaderboard := s.leaderboard[name := k]), true)
    else if name in s.leaderboard then
      (s.(killCounts := s.killCounts[name := KillRecord(1, DefaultGoal)]), false)
    else
      (s.(killCounts := s.killCounts[name := KillRecord(1, DefaultGoal)],
          leaderboard := s.leaderboard[name := 1]), true)
  }

  /** The counting that precedes the goal checks: the total first, then the
      attribution to the killer. The outcome is the one the handler ends with
      at this point, or `None` when it goes on to the goal checks. */
  function Count(s: State, isWolf: bool, killer: Option<string>): (r: (State, Option<Outcome>))
    ensures r.1.None? ==> isWolf && killer.Some? && killer.value in r.0.killCounts
    // a non-wolf changes nothing; a wolf is counted in the total before anything can fail
    ensures r.1 == Some(NotAWolf) <==> !isWolf
    ensures !isWolf ==> r.0 == s
    ensures isWolf ==> r.0.totalKills == s.totalKills + 1 && r.0.serverGoal == s.serverGoal
    ensures isWolf && killer.None? ==> r == (s.(totalKills := s.totalKills + 1), Some(NullKillerFault))
    // with a killer, the goal checks follow exactly when the attribution succeeds
    ensures isWolf && killer.Some? ==>
              var attributed := CountKill(s.(totalKills := s.totalKills + 1), killer.value);
              && r.0 == attributed.0
              && (r.1.None? <==> attributed.1)
              && (!attributed.1 ==> r.1 == Some(DuplicateLeaderboardFault))
  {
    if !isWolf then (s, Some(NotAWolf))
    else
      var counted := s.(totalKills := s.totalKills + 1);
      match killer
      case None => (counted, Some(NullKillerFault))
      case Some(name) =>
        var (attributed, added) := CountKill(counted, name);
        (attributed, if added then None else Some(DuplicateLeaderboardFault))
  }

  /** The state update of `OnEntityDeath` for a dead entity that is or is not
      a wolf, killed by a player with the given name or by no player. */
  function RecordKill(s: State, isWolf: bool, killer: Option<string>): (r: (State, Outcome))
    // anything but a wolf is ignored
    ensures !isWolf <==> r.1 == NotAWolf
    ensures !isWolf ==> r.0 == s
    // every wolf death is counted, whatever happens afterwards
    ensures isWolf ==> r.0.totalKills == s.totalKills + 1
    // no killer: the lookup throws once the total is already counted
    ensures isWolf && killer.None? ==>
              r.1 == NullKillerFault && r.0 == s.(totalKills := s.totalKills + 1)
    // a new player whose name is on the leaderboard: the record is added, then `Add` throws
    ensures isWolf && killer.Some? && killer.value !in s.killCounts && killer.value in s.leaderboard ==>
              && r.1 == DuplicateLeaderboardFault
              && r.0 == s.(totalKills := s.totalKills + 1,
                           killCounts := s.killCounts[killer.value := KillRecord(1, DefaultGoal)])
    // otherwise the kill is counted for the player and both goals are checked
    ensures isWolf && killer.Some? && (killer.value in s.killCounts || killer.value !in s.leaderboard) ==>
              var n := killer.value;
              var k := Prior(s, n).kills + 1;
              var g := Prior(s, n).goal;
              && r.1.Counted?
              && n in r.0.killCounts
              && r.0.killCounts[n] == KillRecord(k, if k == g then g * 2 else g)
              && r.0.leaderboard == s.leaderboard[n := k]
              && r.0.killCounts - {n} == s.killCounts - {n}
              && r.1.playerGoalReached == (if k == g then Some(CalculateGoal(k)) else None)
              && r.0.serverGoal == (if s.totalKills + 1 == s.serverGoal then s.serverGoal * 2 else s.serverGoal)
              && r.1.serverGoalReached == (if s.totalKills + 1 == s.serverGoal then Some(s.serverGoal * 2) else None)
    // the server goal only ever changes through its own check
    ensures !r.1.Counted? ==> r.0.serverGoal == s.serverGoal && r.0.leaderboard == s.leaderboard
  {
    var (counted, outcome) := Count(s, isWolf, killer);
    if outcome.Some? then (counted, outcome.value) else CheckGoals(counted, killer.value)
  }

  /** Every player's goal is positive and ahead of their kills. */
  ghost predicate GoalsAhead(s: State) {
    forall n :: n in s.killCounts ==> 0 < s.killCounts[n].goal && s.killCounts[n].kills < s.killCounts[n].goal
  }

  /** The server goal is positive and ahead of the total. */
  ghost predicate ServerGoalAhead(s: State) {
    0 < s.serverGoal && s.totalKills < s.serverGoal
  }

  /** A kill keeps every goal ahead of its count, on every outcome: a goal
      that is reached exactly is doubled, and a new player starts at `{ 1, 50 }`. */
  lemma KillKeepsGoalsAhead(s: State, isWolf: bool, killer: Option<string>)
    requires GoalsAhead(s)
    ensures GoalsAhead(RecordKill(s, isWolf, killer).0)
  {
    var r := RecordKill(s, isWolf, killer).0;
    if isWolf && killer.Some? {
      var n := killer.value;
      forall m | m in r.killCounts
        ensures 0 < r.killCounts[m].goal && r.killCounts[m].kills < r.killCounts[m].goal
      {
        if m != n {
          assert m in r.killCounts - {n};
        }
      }
    }
  }

  /** A counted kill keeps the server goal ahead of the total, because it
      grows the total by one and doubles the goal that it lands on. */
  lemma CountedKillKeepsServerGoalAhead(s: State, isWolf: bool, killer: Option<string>)
    requires ServerGoalAhead(s)
    requires RecordKill(s, isWolf, killer).1.Counted? || !isWolf
    ensures ServerGoalAhead(RecordKill(s, isWolf, killer).0)
  {
  }

  /** A wolf death with no player behind it that lands on the server goal
      leaves the goal where it is: the exception comes before the check. */
  lemma NullKillerSkipsServerGoal(s: State)
    requires s.totalKills + 1 == s.serverGoal
    ensures var r := RecordKill(s, true, None);
            r.1 == NullKillerFault && r.0.totalKills == r.0.serverGoal == s.serverGoal
  {
  }

  /** Once the total has reached or passed the server goal without the check
      firing, no later event escalates it: the total only moves further away. */
  lemma ServerGoalStaysBehind(s: State, isWolf: bool, killer: Option<string>)
    requires s.totalKills >= s.serverGoal
    ensures var r := RecordKill(s, isWolf, killer);
            && r.0.serverGoal == s.serverGoal
            && r.0.totalKills >= r.0.serverGoal
            && (r.1.Counted? ==> r.1.serverGoalReached.None?)
  {
  }

  /** A player whose count has reached or passed the stored goal without
      escalation (a legacy count on a multiple of 50 loads as `{ k, k }`)
      never escalates again: every kill moves the count further past it. */
  lemma PlayerGoalStaysBehind(s: State, name: string)
    requires name in s.killCounts && s.killCounts[name].kills >= s.killCounts[name].goal
    ensures var r := RecordKill(s, true, Some(name));
            && r.1.Counted? && r.1.playerGoalReached.None?
            && r.0.killCounts[name].goal == s.killCounts[name].goal
            && r.0.killCounts[name].kills > r.0.killCounts[name].goal
  {
  }

  /** The player announcement reports `CalculateGoal(kills)`, which for a goal
      on a multiple of 50 is the goal just reached, while the goal stored for
      the next escalation is twice that. */
  lemma PlayerAnnouncementReportsReachedGoal(s: State, name: string)
    requires name in s.killCounts
    requires s.killCounts[name].kills + 1 == s.killCounts[name].goal
    requires 0 < s.killCounts[name].goal && s.killCounts[name].goal % DefaultGoal == 0
    ensures var g := s.killCounts[name].goal;
            var r := RecordKill(s, true, Some(name));
            && r.1 == Counted(r.1.serverGoalReached, Some(g))
            && r.0.killCounts[name].goal == 2 * g
  {
  }

  /** `ResetLeaderboardCommand`'s state change: the leaderboard is cleared. */
  function ResetLeaderboard(s: State): (r: State)
    ensures r.leaderboard == map[]
    ensures r.killCounts == s.killCounts && r.totalKills == s.totalKills && r.serverGoal == s.serverGoal
  {
    s.(leaderboard := map[])
  }

  /** After a reset, a kill by a known player puts their lifetime count back
      on the leaderboard, not a count restarted from zero. */
  lemma ResetThenKillShowsLifetimeKills(s: State, name: string)
    requires name in s.killCounts
    ensures var r := RecordKill(ResetLeaderboard(s), true, Some(name)).0;
            r.leaderboard == map[name := s.killCounts[name].kills + 1]
  {
  }

  /** The goal checks as the handler is written: `serverChannel` is never
      assigned, so the broadcast that comes before each doubling is a call on
      null and throws. A reached server goal ends the handler before the
      player check; a reached player goal ends it before the goal is doubled. */
  function CheckGoalsAsWritten(s: State, name: string): (r: (State, Outcome))
    requires name in s.killCounts
    ensures r.0 == s
    ensures r.1 == BroadcastFault <==>
              s.totalKills == s.serverGoal || s.killCounts[name].kills == s.killCounts[name].goal
    ensures r.1 != BroadcastFault ==> r.1 == Counted(None, None)
  {
    if s.totalKills == s.serverGoal then (s, BroadcastFault)
    else if s.killCounts[name].kills == s.killCounts[name].goal then (s, BroadcastFault)
    else (s, Counted(None, None))
  }

  /** `OnEntityDeath` as written: the counting of `RecordKill`, then the goal
      checks that fault instead of escalating. */
  function RecordKillAsWritten(s: State, isWolf: bool, killer: Option<string>): (r: (State, Outcome))
    // no goal is ever doubled and no announcement is ever made
    ensures r.0.serverGoal == s.serverGoal
    ensures forall n :: n in s.killCounts && n in r.0.killCounts ==> r.0.killCounts[n].goal == s.killCounts[n].goal
    ensures r.1.Counted? ==> r.1 == Counted(None, None)
  {
    var (counted, outcome) := Count(s, isWolf, killer);
    if outcome.Some? then (counted, outcome.value) else CheckGoalsAsWritten(counted, killer.value)
  }

  /** The handler as written and as intended agree on every event that
      reaches no goal; on an event that reaches one, the written handler
      faults with the kill counted and both goals where they were. */
  lemma AsWrittenDiffersOnlyAtGoals(s: State, isWolf: bool, killer: Option<string>)
    ensures var r := RecordKill(s, isWolf, killer);
            var w := RecordKillAsWritten(s, isWolf, killer);
            var reached := r.1.Counted? && (r.1.serverGoalReached.Some? || r.1.playerGoalReached.Some?);
            && (!reached ==> w == r)
            && (reached ==> && w.1 == BroadcastFault
                            && w.0 == Count(s, isWolf, killer).0
                            && w.0.totalKills == r.0.totalKills
                            && w.0.leaderboard == r.0.leaderboard
                            && w.0.serverGoal == s.serverGoal)
  {
    var (counted, outcome) := Count(s, isWolf, killer);
    if outcome.None? {
      var name := killer.value;
      if counted.totalKills != counted.serverGoal {
        assert CheckGoals(counted, name).0.serverGoal == counted.serverGoal;
      }
    }
  }

  /** A player one kill short of the goal: the written handler leaves the
      count on the goal, undoubled, and the event faults, so the goals stop
      being ahead of the counts (compare `KillKeepsGoalsAhead`). */
  lemma AsWrittenBreaksGoalsAhead()
    ensures var s := State(map["wolfy" := KillRecord(49, 50)], map["wolfy" := 49], 0, 100);
            var w := RecordKillAsWritten(s, true, Some("wolfy"));
            && GoalsAhead(s)
            && w.1 == BroadcastFault
            && w.0.killCounts["wolfy"] == KillRecord(50, 50)
            && !GoalsAhead(w.0)
  {
    var s := State(map["wolfy" := KillRecord(49, 50)], map["wolfy" := 49], 0, 100);
    var w := RecordKillAsWritten(s, true, Some("wolfy"));
    assert w.0.killCounts["wolfy"] == KillRecord(50, 50);
  }

  /** The written handler never escalates the server goal: a kill that lands
      the total on it faults, and every later kill moves the total past it. */
  lemma AsWrittenServerGoalNeverDoubles(s: State, name: string)
    requires s.totalKills + 1 == s.serverGoal
    ensures var w := RecordKillAsWritten(s, true, Some(name));
            && (w.1 == BroadcastFault || w.1 == DuplicateLeaderboardFault)
            && w.0.totalKills == w.0.serverGoal == s.serverGoal
  {
  }
}
