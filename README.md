# Corner navigator: the waypoint sequencer

This project models the waypoint sequencer of the `CornerNavigator` ROS node
(`scripts/corner_navigator.py`). The node drives a TurtleBot along a fixed
route of nine waypoints: the four corners of an arena and one waypoint in each
obstacle zone between them. For every waypoint it does the following:

- logs a "Goal Sent" row and sends one navigation goal;
- waits a bounded time and classifies the result as Timeout, Reached or Failed;
- counts the result;
- after a success with a positive dwell, pauses and logs "Pause Complete".

When the route is exhausted it writes a summary block with the counts and the
success rate. A shutdown hook cancels all goals. If the log file is still
open, the hook writes a shutdown marker and closes the file.

The model has three modules:

- `WaypointLog` (`waypoint_log.dfy`) holds the log file's contents as
  structured entries. It defines:
  - the banner, the data rows, the summary and the shutdown marker;
  - the 30-character name column;
  - the status words;
  - a tally of rows by status;
  - the success rate with its guard for an empty route.
- `Sequencer` (`sequencer.dfy`) is the specification of one run.
  - The navigation service is an oracle. For each waypoint, the wait either
    expires (`TimedOut`) or the goal ends in one of the ten action-protocol
    states (`Finished(state)`).
  - `StepStatuses` classifies one waypoint.
  - `RunLog`, `ReachedCount`, `FailedCount`, `PausedCount` and `Goals` describe
    a whole run.
  - The lemmas relate these functions to each other.
- `Node` (`corner_navigator.dfy`) holds the class `CornerNavigator`. Its fields
  are the ones the node updates in place:
  - the two counters;
  - the log;
  - the file's closed flag;
  - the last odometry pose;
  - the goals sent and the number of cancel requests, which record what the
    node asked of its action client.

  Its methods follow the source's control flow: a `for` loop over the
  waypoints, with an early exit where the source's `continue` ends the
  waypoint. `VisitWaypoint` and `NavigateToWaypoints` are proved against the
  `Sequencer` functions; the other methods state their new fields directly. The
  `Consistent` invariant ties the counters to the rows of the log. The
  constructor, `NavigateToWaypoints` and `ShutdownHook` each establish or
  preserve it.

Writing to a closed file raises in the source. The model makes this explicit:
a write to a closed log returns `false` and changes nothing.
`NavigateToWaypoints` on a closed log stops at its first write, before any
goal is sent, and reports this by returning `false`.

There is no single finalize step. In the code:

- `navigate_to_waypoints` writes the summary when the loop ends, and does not
  close the file;
- `shutdown_hook` writes only the shutdown marker, and closes the file;
- a run that is interrupted before the loop ends has no summary.

## Model

| member | source | states |
|---|---|---|
| WaypointLog.NameField | scripts/corner_navigator.py:124-125 | The name column is exactly 30 characters. Its k-th character is the name's k-th character while the name lasts, and a space after that. So it holds `name[:30]`, left-aligned and padded. |
| WaypointLog.NameFieldRoundTrip | scripts/corner_navigator.py:124-125 | A name of at most 30 characters that does not end in a space is recovered from its column by stripping trailing spaces. Truncation therefore loses nothing for such names. |
| WaypointLog.StatusText | scripts/corner_navigator.py:150-180 | Every status word is non-empty and fits the 15-character status column. |
| WaypointLog.StatusTextInjective | scripts/corner_navigator.py:150-180 | Different statuses are written as different words. |
| WaypointLog.TallyAppend | scripts/corner_navigator.py:128 | The log is append-only. The count of rows with a given status in two concatenated logs is the sum of the two counts. |
| WaypointLog.StatusesSkip | scripts/corner_navigator.py:196-217 | The banner, the summary and the shutdown marker add no data row. |
| WaypointLog.SuccessRate | scripts/corner_navigator.py:203-205 | The rate is 0 for an empty route, not a division by zero. Otherwise rate × total = 100 × reached. It lies in [0, 100] when reached ≤ total, and it is 100 exactly when every waypoint was reached. |
| Sequencer.CornerRouteFits | scripts/corner_navigator.py:26-45 | The hard-coded route has nine waypoints. Every name fits the 30-character column and every dwell is positive. |
| Sequencer.StepStatuses | scripts/corner_navigator.py:149-181 | One waypoint logs "Goal Sent" first and only once, then: "Timeout" iff the wait expired; "Reached" iff the goal ended SUCCEEDED; "Failed" iff it ended in any other state; "Pause Complete" iff it was reached with a positive dwell. Three rows only as Goal Sent, Reached, Pause Complete. |
| Sequencer.GoalsInOrder | scripts/corner_navigator.py:141-152 | A run sends exactly one goal per waypoint. The k-th goal targets the k-th waypoint's (x, y): no skip, no retry, no reordering. |
| Sequencer.CountsAddUp | scripts/corner_navigator.py:157-181 | Every waypoint adds one to exactly one counter, so reached + failed equals the number of waypoints. |
| Sequencer.CountsMatchOutcomes | scripts/corner_navigator.py:155-181 | The reached count is the number of goals that ended SUCCEEDED. The failed count is all the others. Every timeout counts as a failure and never as reached. |
| Sequencer.CountsMonotone | scripts/corner_navigator.py:141-181 | Along the run the counters only grow. After i waypoints they add up to i. |
| Sequencer.PausedBelowReached | scripts/corner_navigator.py:165-176 | A dwell row follows only a success. |
| Sequencer.PausedWhenAllDwell | scripts/corner_navigator.py:171-176 | When every dwell is positive, every success is followed by a dwell row. |
| Sequencer.CornerRouteDwells | scripts/corner_navigator.py:171-176 | On the corner route, the dwell rows match the reached counter. |
| Sequencer.StepEntriesShape | scripts/corner_navigator.py:118-126 | Every row of one waypoint carries its name column, its target, the current odometry and the step's statuses in order. |
| Sequencer.StepTallies | scripts/corner_navigator.py:149-181 | One waypoint logs one "Goal Sent". It logs one "Reached" iff it succeeded, one "Timeout" or "Failed" iff it did not, and one "Pause Complete" iff it succeeded with a positive dwell. |
| Sequencer.RunLogRows | scripts/corner_navigator.py:118-126 | Every row of a run is a data row with a 30-character name column. It carries the "Actual" pose exactly when an odometry message had arrived. |
| Sequencer.RunLogNames | scripts/corner_navigator.py:124-125 | Every row of a run names a waypoint of the route. |
| Sequencer.RunLogTallies | scripts/corner_navigator.py:141-181 | A run's rows agree with its counters: one "Goal Sent" per waypoint, "Reached" rows equal to the reached count, "Timeout" plus "Failed" rows equal to the failed count, and one "Pause Complete" per success with a positive dwell. |
| Sequencer.RunLogAppend | scripts/corner_navigator.py:141-181 | Runs compose. The log of a route is the log of its first part followed by the log of the rest, so waypoints are logged in route order and each waypoint's rows are contiguous. |
| Sequencer.RunLogSnoc | scripts/corner_navigator.py:141-181 | Processing one more waypoint appends exactly its rows. |
| Sequencer.RunStep | scripts/corner_navigator.py:141-181 | Extending the processed prefix by one waypoint adds its rows, one goal and one count. |
| Sequencer.ScenarioAllReached | scripts/corner_navigator.py:141-205 | Three waypoints without dwell, all reached, log exactly 3 "Goal Sent" and 3 "Reached" rows and nothing else. The counts are 3 and 0, and the rate is 100. |
| Sequencer.ScenarioMiddleTimeout | scripts/corner_navigator.py:155-205 | When the second of three waypoints times out, reached = 2, failed = 1 and the rate is 200/3. |
| Node.CornerNavigator.constructor | scripts/corner_navigator.py:26-86 | The node loads the corner route and opens the log with only its banner. Both counters are 0, no goal has been sent, there is no odometry, and the invariant holds. |
| Node.CornerNavigator.OdomCallback | scripts/corner_navigator.py:90-92 | The stored pose is the last one received. |
| Node.CornerNavigator.Write | scripts/corner_navigator.py:128-129 | A write appends one entry if the file is open. Otherwise it changes nothing. |
| Node.CornerNavigator.LogWaypoint | scripts/corner_navigator.py:113-130 | One row is appended with the truncated name, the target, the status and the current odometry, if any has arrived. |
| Node.CornerNavigator.VisitWaypoint | scripts/corner_navigator.py:148-181 | One loop pass logs that waypoint's classified rows, sends its goal once and adds one to the right counter. On a closed log nothing is sent or changed. |
| Node.CornerNavigator.NavigateToWaypoints | scripts/corner_navigator.py:132-207 | On an open log the counters grow by the reached and failed counts of the outcomes, which together add the route length. The goals sent are the route's goals in order. The log grows by the run's rows and then the summary, which holds the total, the counts and the guarded rate. The invariant is kept. On a closed log nothing changes. |
| Node.CornerNavigator.ShutdownHook | scripts/corner_navigator.py:209-219 | Goals are always cancelled. The marker is written only if the log was open, and the log ends closed. The invariant is kept. |
| Node.ShutdownTwice | scripts/corner_navigator.py:209-219 | Two shutdowns cancel twice but write the marker once, and leave the log closed and consistent. |
| Node.LastOdometryWins | scripts/corner_navigator.py:90-126 | After two odometry messages, the next row carries the second pose. |
| Node.InitiallyConsistent | scripts/corner_navigator.py:72-85 | A log holding only the banner agrees with zero counters and no goals. |
| Node.RunKeepsConsistent | scripts/corner_navigator.py:141-207 | A complete run followed by its summary keeps the invariant. The invariant says the log starts with the banner, reached + failed = goals sent, the "Goal Sent", "Reached" and "Timeout"/"Failed" rows agree with the counters, the "Pause Complete" rows are at most the reached count (the exact count is `PausedCount`, in `RunLogTallies`), and the marker is present exactly once iff the log is closed. |
| Node.ShutdownKeepsConsistent | scripts/corner_navigator.py:214-218 | Writing the marker to an open log and closing it keeps the invariant. |

## Left out

- ROS plumbing is not modelled: node start-up, waiting for the action server, the subscriber and the shutdown-hook registration, and console logging. The goals sent and the cancel requests are recorded as the fields `sent` and `cancels`.
- Time is not modelled: the 60-second wait bound, the dwell sleep, the 5-second warm-up, the timestamps in rows and headers, and the total duration. What the bounded wait yields is an input (`TimedOut` or `Finished(state)`). Only the `pause > 0` test of the dwell matters to the log.
- `create_goal` is not modelled: its frame, stamp and yaw-to-quaternion trigonometry. A goal is its target (x, y).
- Text formatting is not modelled: the `{:.2f}` and `{:.1f}` renderings of numbers, the rule lines and the column header. Rows are structured records. The banner, summary and marker are single entries.
- Log-directory resolution, the `rospkg` fallback, `os.makedirs` and opening the file are not modelled.
- Concurrency is not modelled. Odometry arriving during a run and a shutdown interrupting a run are left out. Within one `NavigateToWaypoints` call the odometry is fixed. Between calls, `OdomCallback` can be applied any number of times.
- `main` is not modelled: its exception handling and `rospy.spin`.
- Node.CornerNavigator.NavigateToWaypoints: the navigation service's answers are a parameter with one outcome per waypoint. The method requires that parameter to have the route's length.
- WaypointLog.SuccessRate: computed on exact reals, not on floating-point numbers.
