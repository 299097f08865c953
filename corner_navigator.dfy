/** The corner navigator node: it owns the statistics counters, the open log
    file, the last odometry message and the action client, and drives the
    route once, goal by goal.

    The action client is represented by what the node does to it: `sent`
    lists the goals dispatched, in order, and `cancels` counts the calls to
    cancel all goals. The navigation service's answers are an input to
    `NavigateToWaypoints`. */
module Node {
  import opened WaypointLog
  import opened Sequencer

  class CornerNavigator {
    const waypoints: seq<Waypoint>
    var reached: nat
    var failed: nat
    var log: seq<Entry>
    var closed: bool
    var odom: Option<Pose>
    var sent: seq<Goal>
    var cancels: nat

    /** The counters, the goals sent and the rows of the log agree with each
        other; the log starts with its banner; once closed it ends with the
        one shutdown marker. */
    ghost predicate Valid()
      reads this
    {
      Consistent(log, reached, failed, |sent|, closed)
    }

    /** Loads the corner route and opens the log with its banner; no goal
        sent, no odometry yet. */
    constructor ()
      ensures Valid()
      ensures waypoints == CornerRoute
      ensures reached == 0 && failed == 0 && sent == [] && cancels == 0
      ensures log == [Banner] && !closed && odom == None
    {
      waypoints := CornerRoute;
      reached, failed := 0, 0;
      var banner := Banner;
      log := [banner];
      closed := false;
      odom := None;
      sent, cancels := [], 0;
      new;
      InitiallyConsistent(log);
    }

    /** Keeps only the latest odometry message. */
    method OdomCallback(pose: Pose)
      modifies this`odom
      ensures odom == Some(pose)
    {
      odom := Some(pose);
    }

    /** One write to the log file. Writing to a closed file raises, and
        then nothing is written. */
    method Write(e: Entry) returns (written: bool)
      modifies this`log
      ensures written == !closed
      ensures log == if written then old(log) + [e] else old(log)
    {
      written := !closed;
      if written {
        log := log + [e];
      }
    }

    /** Appends one data row: the name cut to its column, the target, the
        status and the latest odometry, if any has arrived. */
    method LogWaypoint(name: string, x: real, y: real, status: Status) returns (written: bool)
      modifies this`log
      ensures written == !closed
      ensures log == if written then old(log) + [Record(Row(NameField(name), x, y, status, odom))] else old(log)
    {
      written := Write(Record(Row(NameField(name), x, y, status, odom)));
    }

    /** One pass of the route loop: log "Goal Sent", dispatch the goal, then
        classify what the bounded wait yields. A timeout or any final state
        other than succeeded logs its row and counts a failure; success logs
        "Reached", counts it, and after a positive dwell logs "Pause
        Complete". If the log is closed, the first write raises before the
        goal is sent and nothing changes. */
    method VisitWaypoint(w: Waypoint, o: Outcome) returns (visited: bool)
      modifies this`reached, this`failed, this`log, this`sent
      ensures visited == !closed
      ensures !visited ==> log == old(log) && reached == old(reached) && failed == old(failed) && sent == old(sent)
      ensures visited ==> log == old(log) + StepEntries(w, o, odom)
      ensures visited ==> sent == old(sent) + [GoalOf(w)]
      ensures visited ==> reached == old(reached) + if o == Finished(Succeeded) then 1 else 0
      ensures visited ==> failed == old(failed) + if o == Finished(Succeeded) then 0 else 1
    {
      visited := LogWaypoint(w.name, w.x, w.y, GoalSent);
      if !visited {
        return;
      }
      sent := sent + [GoalOf(w)];
      StepEntriesListed(w, o, odom);
      ghost var before, gs, tail := old(log), Record(RowOf(w, GoalSent, odom)), Record(RowOf(w, PauseComplete, odom));
      // the Goal Sent row was written, so the log is open and the writes below succeed
      var written;
      if o.TimedOut? {
        written := LogWaypoint(w.name, w.x, w.y, Timeout);
        failed := failed + 1;
        AppendEach(before, gs, Record(RowOf(w, Timeout, odom)), tail);
        return;
      }
      if o.state == Succeeded {
        written := LogWaypoint(w.name, w.x, w.y, Reached);
        reached := reached + 1;
        if w.pause > 0.0 {
          written := LogWaypoint(w.name, w.x, w.y, PauseComplete);
        }
        AppendEach(before, gs, Record(RowOf(w, Reached, odom)), tail);
      } else {
        written := LogWaypoint(w.name, w.x, w.y, Failed);
        failed := failed + 1;
        AppendEach(before, gs, Record(RowOf(w, Failed, odom)), tail);
      }
    }

    /** Drives the route once. `outcomes[i]` is what the bounded wait for the
        i-th goal yields. If the log is already closed, the first write raises
        before any goal is sent, and nothing changes. Otherwise every waypoint
        is sent once, in order, classified and counted, and the summary is
        appended. */
    method NavigateToWaypoints(outcomes: seq<Outcome>) returns (ok: bool)
      requires |outcomes| == |waypoints|
      modifies this`reached, this`failed, this`log, this`sent
      ensures ok == !closed
      ensures !ok ==> log == old(log) && reached == old(reached) && failed == old(failed) && sent == old(sent)
      ensures ok ==> reached == old(reached) + ReachedCount(outcomes)
      ensures ok ==> failed == old(failed) + FailedCount(outcomes)
      ensures ok ==> reached + failed == old(reached) + old(failed) + |waypoints|
      ensures ok ==> sent == old(sent) + Goals(waypoints)
      ensures ok ==> log == old(log) + RunLog(waypoints, outcomes, odom)
                            + [Summary(|waypoints|, reached, failed, SuccessRate(reached, |waypoints|))]
      ensures old(Valid()) ==> Valid()
    {
      for i := 0 to |waypoints|
        invariant closed ==> i == 0
        invariant reached == old(reached) + ReachedCount(outcomes[..i])
        invariant failed == old(failed) + FailedCount(outcomes[..i])
        invariant sent == old(sent) + Goals(waypoints[..i])
        invariant log == old(log) + RunLog(waypoints[..i], outcomes[..i], odom)
      {
        var visited := VisitWaypoint(waypoints[i], outcomes[i]);
        if !visited {
          return false;
        }
        RunStep(waypoints, outcomes, i, odom);
        ConcatAssoc(old(log), RunLog(waypoints[..i], outcomes[..i], odom), StepEntries(waypoints[i], outcomes[i], odom));
        ConcatAssoc(old(sent), Goals(waypoints[..i]), [GoalOf(waypoints[i])]);
      }
      assert waypoints[..|waypoints|] == waypoints && outcomes[..|outcomes|] == outcomes;
      ok := Write(Summary(|waypoints|, reached, failed, SuccessRate(reached, |waypoints|)));
      CountsAddUp(outcomes);
      if ok && old(Valid()) {
        GoalsInOrder(waypoints);
        RunKeepsConsistent(old(log), old(reached), old(failed), |old(sent)|, waypoints, outcomes, odom,
                           log[|log| - 1], log, reached, failed, |sent|);
      }
    }

    /** Cancels all goals, then, if the log is still open, writes the
        shutdown marker and closes it; a second call changes nothing in the
        log. */
    method ShutdownHook()
      modifies this`cancels, this`log, this`closed
      ensures cancels == old(cancels) + 1
      ensures closed
      ensures log == if old(closed) then old(log) else old(log) + [ShutdownMarker]
      ensures old(Valid()) ==> Valid()
    {
      cancels := cancels + 1;
      if !closed {
        var written := Write(ShutdownMarker);
        closed := true;
        if old(Valid()) {
          ShutdownKeepsConsistent(old(log), reached, failed, |sent|);
        }
      }
    }
  }

  /** The counters, the number of goals sent and the rows of the log agree
      with each other; the log starts with its banner; once closed it ends
      with the one shutdown marker. */
  ghost predicate Consistent(log: seq<Entry>, reached: nat, failed: nat, sent: nat, closed: bool)
  {
    && |log| > 0 && log[0] == Banner
    && reached + failed == sent
    && Tally(log, GoalSent) == sent
    && Tally(log, Reached) == reached
    && Tally(log, Timeout) + Tally(log, Failed) == failed
    && Tally(log, PauseComplete) <= reached
    && multiset(log)[ShutdownMarker] == (if closed then 1 else 0)
    && (closed ==> log[|log| - 1] == ShutdownMarker)
  }

  /** A freshly opened log holds only its banner and agrees with zero
      counters. */
  lemma InitiallyConsistent(log: seq<Entry>)
    requires log == [Banner]
    ensures Consistent(log, 0, 0, 0, false)
  {
    StatusesSkip([], Banner);
    assert [] + [Banner] == log;
  }

  /** A complete run on an open log, followed by its summary, keeps the log
      and the counters in agreement. */
  lemma RunKeepsConsistent(log: seq<Entry>, reached: nat, failed: nat, sent: nat,
                           ws: seq<Waypoint>, os: seq<Outcome>, odom: Option<Pose>, summary: Entry,
                           log': seq<Entry>, reached': nat, failed': nat, sent': nat)
    requires |ws| == |os| && summary.Summary?
    requires Consistent(log, reached, failed, sent, false)
    requires log' == log + RunLog(ws, os, odom) + [summary]
    requires reached' == reached + ReachedCount(os) && failed' == failed + FailedCount(os)
    requires sent' == sent + |ws|
    ensures Consistent(log', reached', failed', sent', false)
  {
    var run := RunLog(ws, os, odom);
    CountsAddUp(os);
    PausedBelowReached(ws, os);
    forall st ensures Tally(log', st) == Tally(log, st) + Tally(run, st) {
      TallyAppend(log, run, st);
      StatusesSkip(log + run, summary);
    }
    RunLogTallies(ws, os, odom);
    RunLogRows(ws, os, odom);
    assert ShutdownMarker !in run;
    assert log'[0] == log[0];
  }

  /** Writing the shutdown marker to an open log closes it consistently. */
  lemma ShutdownKeepsConsistent(log: seq<Entry>, reached: nat, failed: nat, sent: nat)
    requires Consistent(log, reached, failed, sent, false)
    ensures Consistent(log + [ShutdownMarker], reached, failed, sent, true)
  {
    StatusesSkip(log, ShutdownMarker);
  }

  /** Shutting down twice cancels goals twice but writes the marker and
      closes the log only once. */
  method ShutdownTwice(n: CornerNavigator)
    requires n.Valid() && !n.closed
    modifies n
    ensures n.Valid() && n.closed
    ensures n.cancels == old(n.cancels) + 2
    ensures n.log == old(n.log) + [ShutdownMarker]
  {
    n.ShutdownHook();
    n.ShutdownHook();
  }

  /** The row logged after two odometry messages carries the second one. */
  method LastOdometryWins(n: CornerNavigator, p: Pose, q: Pose, name: string)
    requires !n.closed
    modifies n
    ensures n.log == old(n.log) + [Record(Row(NameField(name), 1.0, 2.0, GoalSent, Some(q)))]
  {
    n.OdomCallback(p);
    n.OdomCallback(q);
    var written := n.LogWaypoint(name, 1.0, 2.0, GoalSent);
  }
}
