/**
 * The day label of the payload. The service formats the clock reading with the
 * layout "2006-01-02 15:04:05 Monday", splits the text on single spaces and keeps
 * the last piece. The clock and Go's layout engine are not modelled: a Stamp
 * stands for what the layout produces from one reading, the date-and-time text
 * and the weekday of that reading.
 */
module Clock {

  datatype Weekday = Sunday | Monday | Tuesday | Wednesday | Thursday | Friday | Saturday

  /** The full English name that the layout's "Monday" element prints. */
  function WeekdayName(w: Weekday): string {
    match w
    case Sunday => "Sunday"
    case Monday => "Monday"
    case Tuesday => "Tuesday"
    case Wednesday => "Wednesday"
    case Thursday => "Thursday"
    case Friday => "Friday"
    case Saturday => "Saturday"
  }

  /** One clock reading as the layout sees it: "2006-01-02 15:04:05" text and the weekday. */
  datatype Stamp = Stamp(dateTime: string, weekday: Weekday)

  /** An instant as read from the clock (the payload's utc_time), kept opaque. */
  type Instant = int

  /** t.Format("2006-01-02 15:04:05 Monday"). */
  function Format(t: Stamp): string {
    t.dateTime + " " + WeekdayName(t.weekday)
  }

  /** strings.Split with a one-character separator: the pieces between separators, one more than there are separators. */
  function Split(s: string, sep: char): (parts: seq<string>)
    ensures |parts| >= 1
  {
    if s == [] then [""]
    else
      var init := Split(s[..|s| - 1], sep);
      var c := s[|s| - 1];
      if c == sep then init + [""]
      else init[..|init| - 1] + [init[|init| - 1] + [c]]
  }

  /** No piece of a split contains the separator. */
  lemma {:induction false} SplitPiecesExcludeSep(s: string, sep: char)
    ensures forall k | 0 <= k < |Split(s, sep)| :: sep !in Split(s, sep)[k]
  {
    if s != [] {
      var init := Split(s[..|s| - 1], sep);
      var c := s[|s| - 1];
      SplitPiecesExcludeSep(s[..|s| - 1], sep);
      if c != sep {
        var parts := init[..|init| - 1] + [init[|init| - 1] + [c]];
        assert Split(s, sep) == parts;
        forall k | 0 <= k < |parts| ensures sep !in parts[k] {
          if k < |init| - 1 {
            assert parts[k] == init[k];
          }
        }
      }
    }
  }

  /** strings.Join with a one-character separator: the inverse of Split. */
  function Join(parts: seq<string>, sep: char): string
    requires |parts| >= 1
  {
    if |parts| == 1 then parts[0]
    else Join(parts[..|parts| - 1], sep) + [sep] + parts[|parts| - 1]
  }

  /** Joining the pieces of a split with the same separator gives back the text. */
  lemma {:induction false} SplitJoin(s: string, sep: char)
    ensures Join(Split(s, sep), sep) == s
  {
    if s != [] {
      var t, c := s[..|s| - 1], s[|s| - 1];
      SplitJoin(t, sep);
      assert t + [c] == s;
      SplitJoinStep(t, c, sep);
    }
  }

  /** One more character keeps the split and the join inverse to each other. */
  lemma SplitJoinStep(t: string, c: char, sep: char)
    requires Join(Split(t, sep), sep) == t
    ensures Join(Split(t + [c], sep), sep) == t + [c]
  {
    var init := Split(t, sep);
    assert (t + [c])[..|t|] == t;
    if c == sep {
      assert Split(t + [c], sep) == init + [""];
      JoinAppend(init, "", sep);
    } else {
      assert Split(t + [c], sep) == init[..|init| - 1] + [init[|init| - 1] + [c]];
      JoinExtendLast(init, c, sep);
    }
  }

  /** Appending a piece appends the separator and the piece. */
  lemma JoinAppend(parts: seq<string>, x: string, sep: char)
    requires |parts| >= 1
    ensures Join(parts + [x], sep) == Join(parts, sep) + [sep] + x
  {
    assert (parts + [x])[..|parts|] == parts;
  }

  /** Extending the last piece extends the joined text. */
  lemma JoinExtendLast(parts: seq<string>, c: char, sep: char)
    requires |parts| >= 1
    ensures Join(parts[..|parts| - 1] + [parts[|parts| - 1] + [c]], sep) == Join(parts, sep) + [c]
  {
    var n := |parts|;
    var front := parts[..n - 1];
    if n > 1 {
      JoinAppend(front, parts[n - 1] + [c], sep);
      JoinAppend(front, parts[n - 1], sep);
      assert front + [parts[n - 1]] == parts;
    }
  }

  /** The last piece of a split is whatever follows the last separator. */
  lemma {:induction false} SplitLast(p: string, sep: char, n: string)
    requires sep !in n
    ensures var parts := Split(p + [sep] + n, sep); parts[|parts| - 1] == n
  {
    var s := p + [sep] + n;
    if n == [] {
      assert s[..|s| - 1] == p;
    } else {
      var m := n[..|n| - 1];
      assert s[..|s| - 1] == p + [sep] + m;
      assert sep !in m by {
        forall k | 0 <= k < |m| ensures m[k] != sep { assert m[k] == n[k]; }
      }
      SplitLast(p, sep, m);
      assert m + [n[|n| - 1]] == n;
    }
  }

  /** day(t): the last space-separated piece of the formatted reading. */
  function Day(t: Stamp): (d: string)
    ensures d == WeekdayName(t.weekday)
  {
    var parts := Split(Format(t), ' ');
    SplitLast(t.dateTime, ' ', WeekdayName(t.weekday));
    parts[|parts| - 1]
  }

  /** The day label is always one of the seven English weekday names. */
  lemma DayIsWeekdayName(t: Stamp)
    ensures Day(t) in {"Sunday", "Monday", "Tuesday", "Wednesday", "Thursday", "Friday", "Saturday"}
  {
  }
}
