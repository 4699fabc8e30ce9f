/**
 * `pages/admin/ActivityLogsPage.tsx`: the visit-notice list with its status
 * filter, the per-status tallies above it, and the relative time shown for
 * each entry. Times are integer milliseconds; the absolute date of old
 * entries is locale text and comes in as a parameter.
 */
module ActivityLogsPage {
  import opened Text
  import opened Seqs
  import opened ClientTypes

  /** The filter buttons: `'all'`, or one of the three statuses. */
  datatype StatusFilter = All | Only(status: VisitStatus)

  function HasStatus(status: VisitStatus): VisitorLog -> bool {
    (log: VisitorLog) => log.status == status
  }

  /** `filteredLogs`: every log under `all`, otherwise exactly those of that status, in order. */
  function FilteredLogs(logs: seq<VisitorLog>, filter: StatusFilter): (r: seq<VisitorLog>)
    ensures filter.All? ==> r == logs
    ensures filter.Only? ==>
      (forall i :: 0 <= i < |r| ==> r[i].status == filter.status) &&
      (forall i :: 0 <= i < |logs| && logs[i].status == filter.status ==> logs[i] in r) &&
      IsSubsequence(r, logs)
  {
    match filter
    case All => logs
    case Only(status) =>
      FilterIsSubsequence(logs, HasStatus(status));
      Filter(logs, HasStatus(status))
  }

  /** `logs.filter(log => log.status === status).length`. */
  function CountOf(logs: seq<VisitorLog>, status: VisitStatus): (n: nat)
    ensures n <= |logs|
  {
    |Filter(logs, HasStatus(status))|
  }

  /** The three tallies add up to the total, because a log has exactly one of the three statuses. */
  lemma {:induction false} CountsSumToTotal(logs: seq<VisitorLog>)
    ensures CountOf(logs, Notified) + CountOf(logs, Pending) + CountOf(logs, Failed) == |logs|
    decreases |logs|
  {
    if logs != [] {
      CountsSumToTotal(logs[1..]);
      assert logs == [logs[0]] + logs[1..];
      FilterConcat([logs[0]], logs[1..], HasStatus(Notified));
      FilterConcat([logs[0]], logs[1..], HasStatus(Pending));
      FilterConcat([logs[0]], logs[1..], HasStatus(Failed));
      assert [logs[0]][1..] == [];
    }
  }

  /** The relative form of an entry's time. */
  datatype Age = MinutesAgo(minutes: int) | HoursAgo(hours: int) | OnDate

  const MinuteMs := 60000
  const HourMs := 3600000

  /**
   * `formatTimestamp`'s buckets: under an hour the whole minutes, under a day
   * the whole hours, older than that the absolute date. `Math.floor`
   * rounds towards minus infinity, so a time in the future shows negative minutes.
   */
  function AgeOf(timestamp: int, now: int): (a: Age)
    ensures a.MinutesAgo? <==> now - timestamp < HourMs
    ensures a.OnDate? <==> now - timestamp >= 24 * HourMs
    ensures a.MinutesAgo? ==> a.minutes * MinuteMs <= now - timestamp < (a.minutes + 1) * MinuteMs
    ensures a.MinutesAgo? && now >= timestamp ==> 0 <= a.minutes < 60
    ensures a.HoursAgo? ==> a.hours * HourMs <= now - timestamp < (a.hours + 1) * HourMs && 1 <= a.hours < 24
  {
    var diffMs := now - timestamp;
    if diffMs < HourMs then MinutesAgo(diffMs / MinuteMs)
    else if diffMs < 24 * HourMs then HoursAgo(diffMs / HourMs)
    else OnDate
  }

  /**
   * A whole number as JavaScript prints it: a minus sign exactly for a
   * negative number, then decimal digits that read back as its magnitude.
   */
  function IntToString(n: int): (s: string)
    ensures |s| >= 1 && (s[0] == '-' <==> n < 0)
    ensures n >= 0 ==> (forall i :: 0 <= i < |s| ==> IsDigit(s[i])) && DigitsValue(s) == n
    ensures n < 0 ==> |s| >= 2 && (forall i :: 0 <= i < |s| - 1 ==> IsDigit(s[1..][i])) && DigitsValue(s[1..]) == -n
  {
    if n < 0 then
      DigitsValueOfNatToString(-n);
      assert ("-" + NatToString(-n))[1..] == NatToString(-n);
      "-" + NatToString(-n)
    else
      DigitsValueOfNatToString(n);
      NatToString(n)
  }

  /** The rendered text; `absolute` stands for `toLocaleDateString() + ' at ' + toLocaleTimeString()`. */
  function FormatTimestamp(timestamp: int, now: int, absolute: string): (text: string)
    ensures now - timestamp < HourMs ==>
      text == IntToString(AgeOf(timestamp, now).minutes) + " minutes ago"
    ensures HourMs <= now - timestamp < 24 * HourMs ==>
      text == IntToString(AgeOf(timestamp, now).hours) + " hours ago"
    ensures now - timestamp >= 24 * HourMs ==> text == absolute
  {
    match AgeOf(timestamp, now)
    case MinutesAgo(m) => IntToString(m) + " minutes ago"
    case HoursAgo(h) => IntToString(h) + " hours ago"
    case OnDate => absolute
  }
}
