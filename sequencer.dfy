/** The waypoint sequencer as a specification: how one waypoint's navigation
    outcome is classified into log rows and counters, and what a whole run over
    an ordered route produces. The navigation service is an oracle: for each
    waypoint it either lets the bounded wait expire or reports a terminal goal
    status. */
module Sequencer {
  import opened WaypointLog

  /** A route entry: target position, display name and dwell time in seconds. */
  datatype Waypoint = Waypoint(x: real, y: real, name: string, pause: real)

  /** The goal states of the action protocol, in their numeric order 0..9. */
  datatype GoalStatus =
    | Pending | Active | Preempted | Succeeded | Aborted
    | Rejected | Preempting | Recalling | Recalled | Lost

  /** What the bounded wait on one goal yields: the wait expired, or the goal
      finished and the client reports its state. */
  datatype Outcome = TimedOut | Finished(state: GoalStatus)

  /** The target position of a goal sent to the navigation service. */
  datatype Goal = Goal(x: real, y: real)

  function GoalOf(w: Waypoint): Goal
  {
    Goal(w.x, w.y)
  }

  /** The route the node drives: the four corners of the arena with a waypoint
      through each obstacle zone between them, ending back at the first corner. */
  const CornerRoute: seq<Waypoint> := [
    Waypoint(0.5, 0.5, "Corner 1", 2.0),
    Waypoint(0.8, 1.5, "Waypoint - Obstacle 1 Zone", 0.5),
    Waypoint(0.5, 4.5, "Corner 2", 2.0),
    Waypoint(1.8, 4.2, "Waypoint - Obstacle 2 Zone", 0.5),
    Waypoint(4.5, 4.5, "Corner 3", 2.0),
    Waypoint(4.2, 3.5, "Waypoint - Obstacle 3 Zone", 0.5),
    Waypoint(4.5, 0.5, "Corner 4", 2.0),
    Waypoint(3.5, 0.8, "Waypoint - Obstacle 4 Zone", 0.5),
    Waypoint(0.5, 0.5, "Corner 1 (Return)", 2.0)
  ]

  /** Every name of the corner route fits the name column, and every entry
      has a positive dwell, so each success on it is followed by a
      "Pause Complete" row. */
  lemma CornerRouteFits()
    ensures |CornerRoute| == 9
    ensures forall k :: 0 <= k < |CornerRoute| ==>
      |CornerRoute[k].name| <= NameWidth && CornerRoute[k].pause > 0.0
  {
  }

  /** The status rows written for one waypoint, in order. */
  function StepStatuses(w: Waypoint, o: Outcome): (sts: seq<Status>)
    ensures 2 <= |sts| <= 3 && sts[0] == GoalSent && GoalSent !in sts[1..]
    ensures Timeout in sts <==> o.TimedOut?
    ensures Reached in sts <==> o == Finished(Succeeded)
    ensures Failed in sts <==> o.Finished? && o.state != Succeeded
    ensures PauseComplete in sts <==> o == Finished(Succeeded) && w.pause > 0.0
    ensures |sts| == 3 ==> sts == [GoalSent, Reached, PauseComplete]
  {
    if o.TimedOut? then [GoalSent, Timeout]
    else if o.state == Succeeded then
      if w.pause > 0.0 then [GoalSent, Reached, PauseComplete] else [GoalSent, Reached]
    else [GoalSent, Failed]
  }

  /** The data row logged for waypoint `w` with status `st` while the last
      odometry message is `odom`. */
  function RowOf(w: Waypoint, st: Status, odom: Option<Pose>): Row
  {
    Row(NameField(w.name), w.x, w.y, st, odom)
  }

  /** The data rows for the statuses `sts` of waypoint `w`, in order. */
  function Records(w: Waypoint, sts: seq<Status>, odom: Option<Pose>): seq<Entry>
  {
    seq(|sts|, k requires 0 <= k < |sts| => Record(RowOf(w, sts[k], odom)))
  }

  /** The log entries for one waypoint. */
  function StepEntries(w: Waypoint, o: Outcome, odom: Option<Pose>): seq<Entry>
  {
    Records(w, StepStatuses(w, o), odom)
  }

  /** The log entries of a run over route `ws` whose goals end as `os`. */
  function RunLog(ws: seq<Waypoint>, os: seq<Outcome>, odom: Option<Pose>): seq<Entry>
    requires |ws| == |os|
  {
    if ws == [] then []
    else
      var n := |ws| - 1;
      RunLog(ws[..n], os[..n], odom) + StepEntries(ws[n], os[n], odom)
  }

  /** Reference counts: how many goals were reached, how many failed (the
      wait timed out or the goal ended in another state), and how many
      successes were followed by a dwell. */
  function ReachedCount(os: seq<Outcome>): nat
  {
    if os == [] then 0
    else ReachedCount(os[..|os| - 1]) + if os[|os| - 1] == Finished(Succeeded) then 1 else 0
  }

  function FailedCount(os: seq<Outcome>): nat
  {
    if os == [] then 0
    else
      var o := os[|os| - 1];
      FailedCount(os[..|os| - 1]) + if o.TimedOut? then 1 else if o.state == Succeeded then 0 else 1
  }

  function PausedCount(ws: seq<Waypoint>, os: seq<Outcome>): nat
    requires |ws| == |os|
  {
    if ws == [] then 0
    else
      var n := |ws| - 1;
      PausedCount(ws[..n], os[..n]) + if os[n] == Finished(Succeeded) && ws[n].pause > 0.0 then 1 else 0
  }

  /** The goals sent over a run: one per waypoint, in route order. */
  function Goals(ws: seq<Waypoint>): seq<Goal>
  {
    if ws == [] then [] else Goals(ws[..|ws| - 1]) + [GoalOf(ws[|ws| - 1])]
  }

  /** Exactly one goal per waypoint, the k-th goal targeting the k-th
      waypoint: nothing is skipped, repeated or reordered. */
  lemma {:induction false} GoalsInOrder(ws: seq<Waypoint>)
    ensures |Goals(ws)| == |ws|
    ensures forall k :: 0 <= k < |ws| ==> Goals(ws)[k] == Goal(ws[k].x, ws[k].y)
  {
    if ws != [] {
      GoalsInOrder(ws[..|ws| - 1]);
    }
  }

  // ---------------------------------------------------------------------
  // Counters

  /** Every waypoint adds one to exactly one of the two counters. */
  lemma {:induction false} CountsAddUp(os: seq<Outcome>)
    ensures ReachedCount(os) + FailedCount(os) == |os|
  {
    if os != [] {
      CountsAddUp(os[..|os| - 1]);
    }
  }

  /** The reached counter is the number of goals that ended in the succeeded
      state; every timeout is counted as a failure, never as reached. */
  lemma {:induction false} CountsMatchOutcomes(os: seq<Outcome>)
    ensures ReachedCount(os) == multiset(os)[Finished(Succeeded)]
    ensures FailedCount(os) == |os| - multiset(os)[Finished(Succeeded)]
    ensures multiset(os)[TimedOut] <= FailedCount(os)
  {
    if os != [] {
      var n := |os| - 1;
      assert os == os[..n] + [os[n]];
      CountsMatchOutcomes(os[..n]);
      CountsAddUp(os);
    }
  }

  /** Counters only grow along a run: stopping the run after any prefix
      leaves fewer (or as many) reached and failed waypoints, and what has been
      counted is exactly the prefix length. */
  lemma {:induction false} CountsMonotone(os: seq<Outcome>, i: nat, j: nat)
    requires i <= j <= |os|
    ensures ReachedCount(os[..i]) <= ReachedCount(os[..j])
    ensures FailedCount(os[..i]) <= FailedCount(os[..j])
    ensures ReachedCount(os[..i]) + FailedCount(os[..i]) == i
    decreases j - i
  {
    CountsAddUp(os[..i]);
    if i < j {
      CountsMonotone(os, i + 1, j);
      assert os[..i + 1][..i] == os[..i];
    }
  }

  /** A dwell only follows a success. */
  lemma {:induction false} PausedBelowReached(ws: seq<Waypoint>, os: seq<Outcome>)
    requires |ws| == |os|
    ensures PausedCount(ws, os) <= ReachedCount(os)
  {
    if ws != [] {
      var n := |ws| - 1;
      PausedBelowReached(ws[..n], os[..n]);
    }
  }

  /** On a route where every dwell is positive, every success is followed by
      a "Pause Complete" row. */
  lemma {:induction false} PausedWhenAllDwell(ws: seq<Waypoint>, os: seq<Outcome>)
    requires |ws| == |os|
    requires forall k :: 0 <= k < |ws| ==> ws[k].pause > 0.0
    ensures PausedCount(ws, os) == ReachedCount(os)
  {
    if ws != [] {
      var n := |ws| - 1;
      PausedWhenAllDwell(ws[..n], os[..n]);
    }
  }

  /** On the corner route, the dwell rows match the reached counter. */
  lemma CornerRouteDwells(os: seq<Outcome>)
    requires |os| == |CornerRoute|
    ensures PausedCount(CornerRoute, os) == ReachedCount(os)
  {
    CornerRouteFits();
    PausedWhenAllDwell(CornerRoute, os);
  }

  // ---------------------------------------------------------------------
  // The run log

  lemma {:induction false} RecordsStatuses(w: Waypoint, sts: seq<Status>, odom: Option<Pose>)
    ensures Statuses(Records(w, sts, odom)) == sts
    decreases |sts|
  {
    if sts != [] {
      var n := |sts| - 1;
      assert Records(w, sts, odom)[..n] == Records(w, sts[..n], odom);
      RecordsStatuses(w, sts[..n], odom);
    }
  }

  /** The rows of one waypoint carry its classification, its name column,
      its target and the current odometry. */
  lemma StepEntriesShape(w: Waypoint, o: Outcome, odom: Option<Pose>)
    ensures Statuses(StepEntries(w, o, odom)) == StepStatuses(w, o)
    ensures forall e :: e in StepEntries(w, o, odom) ==>
      e.Record? && e.row.name == NameField(w.name) && e.row.x == w.x && e.row.y == w.y && e.row.actual == odom
  {
    RecordsStatuses(w, StepStatuses(w, o), odom);
  }

  /** Every entry of a run is a data row with a full-width name column, and
      carries the " | Actual" pose exactly when an odometry message had
      arrived. */
  lemma {:induction false} RunLogRows(ws: seq<Waypoint>, os: seq<Outcome>, odom: Option<Pose>)
    requires |ws| == |os|
    ensures forall e :: e in RunLog(ws, os, odom) ==>
      e.Record? && e.row.actual == odom && |e.row.name| == NameWidth
  {
    if ws != [] {
      var n := |ws| - 1;
      RunLogRows(ws[..n], os[..n], odom);
      StepEntriesShape(ws[n], os[n], odom);
    }
  }

  /** Every row of a run names a waypoint of the route. */
  lemma {:induction false} RunLogNames(ws: seq<Waypoint>, os: seq<Outcome>, odom: Option<Pose>)
    requires |ws| == |os|
    ensures forall e :: e in RunLog(ws, os, odom) ==>
      e.Record? && exists w :: w in ws && e.row.name == NameField(w.name)
  {
    if ws != [] {
      var n := |ws| - 1;
      RunLogNames(ws[..n], os[..n], odom);
      StepEntriesShape(ws[n], os[n], odom);
      assert ws[n] in ws;
      forall w | w in ws[..n] ensures w in ws {
      }
    }
  }

  /** The rows of a run agree with its counters: one "Goal Sent" per
      waypoint, one "Reached" per success, one "Timeout" or "Failed" per
      failure, and one "Pause Complete" per success with a positive dwell. */
  lemma {:induction false} RunLogTallies(ws: seq<Waypoint>, os: seq<Outcome>, odom: Option<Pose>)
    requires |ws| == |os|
    ensures Tally(RunLog(ws, os, odom), GoalSent) == |ws|
    ensures Tally(RunLog(ws, os, odom), Reached) == ReachedCount(os)
    ensures Tally(RunLog(ws, os, odom), Timeout) + Tally(RunLog(ws, os, odom), Failed) == FailedCount(os)
    ensures Tally(RunLog(ws, os, odom), PauseComplete) == PausedCount(ws, os)
  {
    if ws != [] {
      var n := |ws| - 1;
      RunLogTallies(ws[..n], os[..n], odom);
      var prev, step := RunLog(ws[..n], os[..n], odom), StepEntries(ws[n], os[n], odom);
      RunLogUnfold(ws, os, odom);
      StepTallies(ws[n], os[n], odom);
      TallyAppend(prev, step, GoalSent);
      TallyAppend(prev, step, Reached);
      TallyAppend(prev, step, Timeout);
      TallyAppend(prev, step, Failed);
      TallyAppend(prev, step, PauseComplete);
    }
  }

  /** The last waypoint's rows close the run. */
  lemma RunLogUnfold(ws: seq<Waypoint>, os: seq<Outcome>, odom: Option<Pose>)
    requires |ws| == |os| && ws != []
    ensures RunLog(ws, os, odom)
      == RunLog(ws[..|ws| - 1], os[..|os| - 1], odom) + StepEntries(ws[|ws| - 1], os[|os| - 1], odom)
  {
  }

  /** The rows of one waypoint, counted by status. */
  lemma StepTallies(w: Waypoint, o: Outcome, odom: Option<Pose>)
    ensures Tally(StepEntries(w, o, odom), GoalSent) == 1
    ensures Tally(StepEntries(w, o, odom), Reached) == if o == Finished(Succeeded) then 1 else 0
    ensures Tally(StepEntries(w, o, odom), Timeout) + Tally(StepEntries(w, o, odom), Failed)
      == if o == Finished(Succeeded) then 0 else 1
    ensures Tally(StepEntries(w, o, odom), PauseComplete)
      == if o == Finished(Succeeded) && w.pause > 0.0 then 1 else 0
  {
    StepEntriesShape(w, o, odom);
  }

  /** Runs compose: the rows of a route are the rows of its first part
      followed by the rows of the rest, so waypoints are logged in route
      order and each one's rows are contiguous. */
  lemma {:induction false} RunLogAppend(ws1: seq<Waypoint>, os1: seq<Outcome>,
                                        ws2: seq<Waypoint>, os2: seq<Outcome>, odom: Option<Pose>)
    requires |ws1| == |os1| && |ws2| == |os2|
    ensures RunLog(ws1 + ws2, os1 + os2, odom) == RunLog(ws1, os1, odom) + RunLog(ws2, os2, odom)
    decreases |ws2|
  {
    if ws2 == [] {
      assert ws1 + ws2 == ws1 && os1 + os2 == os1;
    } else {
      var n := |ws2| - 1;
      var ws', os', w, o := ws2[..n], os2[..n], ws2[n], os2[n];
      assert ws2 == ws' + [w] && os2 == os' + [o];
      ConcatAssoc(ws1, ws', [w]);
      ConcatAssoc(os1, os', [o]);
      RunLogAppend(ws1, os1, ws', os', odom);
      RunLogSnoc(ws1 + ws', os1 + os', w, o, odom);
      RunLogSnoc(ws', os', w, o, odom);
      ConcatAssoc(RunLog(ws1, os1, odom), RunLog(ws', os', odom), StepEntries(w, o, odom));
    }
  }

  /** One more waypoint adds its rows at the end. */
  lemma RunLogSnoc(ws: seq<Waypoint>, os: seq<Outcome>, w: Waypoint, o: Outcome, odom: Option<Pose>)
    requires |ws| == |os|
    ensures RunLog(ws + [w], os + [o], odom) == RunLog(ws, os, odom) + StepEntries(w, o, odom)
  {
    assert (ws + [w])[..|ws|] == ws && (os + [o])[..|os|] == os;
  }

  lemma ConcatAssoc<T>(a: seq<T>, b: seq<T>, c: seq<T>)
    ensures (a + b) + c == a + (b + c)
  {
  }

  lemma AppendEach<T>(s: seq<T>, a: T, b: T, c: T)
    ensures s + [a] + [b] == s + [a, b]
    ensures s + [a] + [b] + [c] == s + [a, b, c]
  {
  }

  /** Extending a processed prefix by one waypoint adds that waypoint's
      rows, one goal and one count. */
  lemma RunStep(ws: seq<Waypoint>, os: seq<Outcome>, i: nat, odom: Option<Pose>)
    requires |ws| == |os| && i < |ws|
    ensures RunLog(ws[..i + 1], os[..i + 1], odom) == RunLog(ws[..i], os[..i], odom) + StepEntries(ws[i], os[i], odom)
    ensures ReachedCount(os[..i + 1]) == ReachedCount(os[..i]) + if os[i] == Finished(Succeeded) then 1 else 0
    ensures FailedCount(os[..i + 1]) == FailedCount(os[..i]) + if os[i] == Finished(Succeeded) then 0 else 1
    ensures Goals(ws[..i + 1]) == Goals(ws[..i]) + [GoalOf(ws[i])]
  {
    assert ws[..i + 1][..i] == ws[..i] && os[..i + 1][..i] == os[..i];
  }

  /** The rows of one waypoint, written out. */
  lemma StepEntriesListed(w: Waypoint, o: Outcome, odom: Option<Pose>)
    ensures StepEntries(w, o, odom) ==
      if o.TimedOut? then [Record(RowOf(w, GoalSent, odom)), Record(RowOf(w, Timeout, odom))]
      else if o.state != Succeeded then [Record(RowOf(w, GoalSent, odom)), Record(RowOf(w, Failed, odom))]
      else if w.pause > 0.0 then
        [Record(RowOf(w, GoalSent, odom)), Record(RowOf(w, Reached, odom)), Record(RowOf(w, PauseComplete, odom))]
      else [Record(RowOf(w, GoalSent, odom)), Record(RowOf(w, Reached, odom))]
  {
  }

  // ---------------------------------------------------------------------
  // Scenarios

  /** Three waypoints without dwell that are all reached: three "Goal Sent"
      and three "Reached" rows and no other row, no failure, rate 100. */
  lemma ScenarioAllReached(a: Waypoint, b: Waypoint, c: Waypoint)
    requires a.pause == 0.0 && b.pause == 0.0 && c.pause == 0.0
    ensures var os := [Finished(Succeeded), Finished(Succeeded), Finished(Succeeded)];
      var log := RunLog([a, b, c], os, None);
      Tally(log, GoalSent) == 3 && Tally(log, Reached) == 3
      && Tally(log, Timeout) == 0 && Tally(log, Failed) == 0 && Tally(log, PauseComplete) == 0
      && ReachedCount(os) == 3 && FailedCount(os) == 0
      && SuccessRate(ReachedCount(os), 3) == 100.0
  {
    var ws, os := [a, b, c], [Finished(Succeeded), Finished(Succeeded), Finished(Succeeded)];
    RunLogTallies(ws, os, None);
    CountsMatchOutcomes(os);
    assert ws[..2] == [a, b] && ws[..2][..1] == [a] && ws[..2][..1][..0] == [];
    assert os[..2][..1][..0] == [];
    assert PausedCount([a], os[..2][..1]) == 0;
    assert PausedCount([a, b], os[..2]) == 0;
  }

  /** The second of three waypoints times out: two reached, one failed,
      rate two thirds. */
  lemma ScenarioMiddleTimeout()
    ensures var os := [Finished(Succeeded), TimedOut, Finished(Succeeded)];
      ReachedCount(os) == 2 && FailedCount(os) == 1
      && SuccessRate(ReachedCount(os), 3) == 200.0 / 3.0
  {
    var os := [Finished(Succeeded), TimedOut, Finished(Succeeded)];
    CountsMatchOutcomes(os);
  }
}
