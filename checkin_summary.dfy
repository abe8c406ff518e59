/** The check-in card of the home page (loadCheckinVisualization): the number
    of completed days, the current streak, the completion rate against the
    plan length, and a progress bar.

    The stored check-in data and the plan length are passed in as parameters,
    and the current day as a day number. */
module CheckinSummary {
  import opened Streak
  import opened Rounding

  /** What `Math.round(completed / planDays * 100)` produces in JavaScript: a
      whole percentage, or NaN for 0 / 0, or Infinity for n / 0 with n > 0. */
  datatype Rate = Percent(value: nat) | NaN | Infinity

  /** The chart area: the "start checking in" message, or a progress bar
      labelled "completed/total (rate%)". */
  datatype CheckinChart = StartCheckingInMessage | ProgressBar(completed: nat, total: nat, shownRate: Rate)

  /** Everything the card displays. */
  datatype CheckinView = CheckinView(completedDays: nat, streakDays: nat, completionRate: Rate, chart: CheckinChart)

  /** The number of stored records marked completed:
      `Object.values(checkinData).filter(c => c.completed).length`. It is at
      most the number of records, and 0 exactly when none is completed. */
  function CompletedCount(data: CheckinData): (n: nat)
    ensures n <= |data|
    ensures n == 0 <==> forall d :: d in data ==> !data[d].completed
  {
    CompletedDatesBounds(data);
    |CompletedDates(data)|
  }

  /** The bounds of CompletedCount, stated on the set of completed dates. */
  lemma CompletedDatesBounds(data: CheckinData)
    ensures |CompletedDates(data)| <= |data|
    ensures |CompletedDates(data)| == 0 <==> forall d :: d in data ==> !data[d].completed
  {
    var c := CompletedDates(data);
    assert c <= data.Keys;
    SubsetCardinality(c, data.Keys);
    if |c| == 0 {
      forall d | d in data
        ensures !data[d].completed
      {
        assert d !in c;
      }
    } else {
      NonEmptyHasElement(c);
    }
  }

  /** A subset has no more elements than its superset. */
  lemma {:induction false} SubsetCardinality(a: set<int>, b: set<int>)
    requires a <= b
    ensures |a| <= |b|
    decreases |b|
  {
    if a != {} {
      NonEmptyHasElement(a);
      var x :| x in a;
      SubsetCardinality(a - {x}, b - {x});
    }
  }

  /** The completion rate: the rounded percentage of plan days completed, or
      NaN / Infinity when the plan is empty, because the source divides by
      the plan length without a guard. */
  function CompletionRate(completed: nat, planDays: nat): (r: Rate)
    ensures planDays > 0 ==> r.Percent? && IsRoundedPercent(completed, planDays, r.value)
    ensures planDays > 0 && completed <= planDays ==> r.Percent? && r.value <= 100
    ensures planDays == 0 ==> r == (if completed == 0 then NaN else Infinity)
  {
    if planDays == 0 then (if completed == 0 then NaN else Infinity)
    else Percent(RoundedPercent(completed, planDays))
  }

  /** loadCheckinVisualization: the completed count, the streak, the
      completion rate, and either the "start checking in" message (nothing
      completed yet) or a progress bar of completed days against plan days. */
  method LoadCheckinVisualization(data: CheckinData, planDays: nat, today: int) returns (v: CheckinView)
    ensures v.completedDays == CompletedCount(data)
    ensures v.streakDays == StreakDays(data, today) && v.streakDays <= v.completedDays
    ensures v.completionRate == CompletionRate(v.completedDays, planDays)
    ensures v.chart.StartCheckingInMessage? <==> v.completedDays == 0
    ensures v.chart.ProgressBar? ==> v.chart == ProgressBar(v.completedDays, planDays, v.completionRate)
  {
    var completedCount := CompletedCount(data);
    var streakDays := CalculateStreakDays(data, today);
    var completionRate := CompletionRate(completedCount, planDays);
    var chart := if completedCount == 0 then StartCheckingInMessage
                 else ProgressBar(completedCount, planDays, completionRate);
    v := CheckinView(completedCount, streakDays, completionRate, chart);
  }
}
