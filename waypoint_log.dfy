/** The waypoint log of the corner navigator: what one row holds, how the name
    column is cut and padded, how the rows of a log are tallied by status, and
    the success rate written in the summary block.

    Rows are kept as structured records: the wall-clock timestamp and the
    decimal formatting of coordinates are not part of this model. */
module WaypointLog {

  datatype Option<T> = None | Some(value: T)

  /** The x and y of an odometry message; nothing else of it is read. */
  datatype Pose = Pose(x: real, y: real)

  /** The status words that a data row can carry. */
  datatype Status = GoalSent | Timeout | Reached | PauseComplete | Failed

  /** One data row: the name column (already truncated and padded), the target
      coordinates, the status, and the pose of the " | Actual: (x, y)" suffix,
      which is present exactly when `actual` is `Some`. */
  datatype Row = Row(name: string, x: real, y: real, status: Status, actual: Option<Pose>)

  /** What the log file receives, in order. */
  datatype Entry =
    | Banner                  // title, start time and column header, written on opening
    | Record(row: Row)        // one lifecycle event of one waypoint
    | Summary(total: nat, reached: nat, failed: nat, rate: real)
    | ShutdownMarker          // "Shutdown initiated at: ..."

  /** Widths of the name and status columns of a data row. */
  const NameWidth: nat := 30
  const StatusWidth: nat := 15

  /** The name column of a row: the first 30 characters of the name, left
      aligned and filled with spaces up to the column width. */
  function NameField(name: string): (field: string)
    ensures |field| == NameWidth
    ensures forall k :: 0 <= k < NameWidth ==> field[k] == if k < |name| then name[k] else ' '
  {
    var shown := if |name| <= NameWidth then name else name[..NameWidth];
    shown + seq(NameWidth - |shown|, _ => ' ')
  }

  /** A name that fits the column and does not end in a space is recovered
      from its column by stripping the padding. */
  function TrimRight(s: string): (t: string)
    ensures |t| <= |s| && t == s[..|t|]
    ensures t == [] || t[|t| - 1] != ' '
    ensures forall k :: |t| <= k < |s| ==> s[k] == ' '
  {
    if s == [] || s[|s| - 1] != ' ' then s else TrimRight(s[..|s| - 1])
  }

  lemma NameFieldRoundTrip(name: string)
    requires |name| <= NameWidth
    requires name == [] || name[|name| - 1] != ' '
    ensures TrimRight(NameField(name)) == name
  {
    var field, t := NameField(name), TrimRight(NameField(name));
    assert t == field[..|name|];
  }

  /** The word written in the status column. Rows keep the `Status` itself,
      so this function and the lemma after it only document the encoding:
      every word fits the column, and no two statuses share a word. */
  function StatusText(st: Status): (text: string)
    ensures 0 < |text| <= StatusWidth
  {
    match st
    case GoalSent => "Goal Sent"
    case Timeout => "Timeout"
    case Reached => "Reached"
    case PauseComplete => "Pause Complete"
    case Failed => "Failed"
  }

  /** Different statuses are written as different words, so the status of a
      row can be read back from the file. */
  lemma StatusTextInjective(a: Status, b: Status)
    requires StatusText(a) == StatusText(b)
    ensures a == b
  {
  }

  /** The statuses of the data rows of a log, in file order; banner, summary
      and shutdown marker are skipped. */
  function Statuses(log: seq<Entry>): (sts: seq<Status>)
    ensures |sts| <= |log|
  {
    if log == [] then []
    else
      var last := log[|log| - 1];
      Statuses(log[..|log| - 1]) + (if last.Record? then [last.row.status] else [])
  }

  lemma {:induction false} StatusesAppend(a: seq<Entry>, b: seq<Entry>)
    ensures Statuses(a + b) == Statuses(a) + Statuses(b)
    decreases |b|
  {
    if b == [] {
      assert a + b == a;
    } else {
      var b' := b[..|b| - 1];
      assert (a + b)[..|a + b| - 1] == a + b';
      StatusesAppend(a, b');
    }
  }

  /** Banner, summary and shutdown marker add no data row. */
  lemma StatusesSkip(log: seq<Entry>, e: Entry)
    requires !e.Record?
    ensures Statuses(log + [e]) == Statuses(log)
  {
    assert (log + [e])[..|log|] == log;
  }

  /** How many data rows of the log carry the status `st`. */
  function Tally(log: seq<Entry>, st: Status): nat
  {
    multiset(Statuses(log))[st]
  }

  lemma TallyAppend(a: seq<Entry>, b: seq<Entry>, st: Status)
    ensures Tally(a + b, st) == Tally(a, st) + Tally(b, st)
  {
    StatusesAppend(a, b);
  }

  /** The success rate of the summary block, in percent; 0 when there are no
      waypoints instead of a division by zero. */
  function SuccessRate(reached: nat, total: nat): (rate: real)
    ensures total == 0 ==> rate == 0.0
    ensures total > 0 ==> rate * (total as real) == 100.0 * (reached as real)
    ensures reached <= total ==> 0.0 <= rate <= 100.0
    ensures total > 0 && reached <= total ==> (rate == 100.0 <==> reached == total)
  {
    if total > 0 then 100.0 * (reached as real) / (total as real) else 0.0
  }
}
