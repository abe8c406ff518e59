/** The consecutive check-in streak shown on the home page (calculateStreakDays).

    Calendar dates are day numbers: the date key "YYYY-MM-DD" of a check-in is
    the number of its day, and `today` is the number of the current local day,
    supplied by the caller. Zero-padded ISO date strings sort lexicographically
    in calendar order, so sorting the keys and reversing the result is sorting
    the day numbers into descending order. */
module Streak {

  /** One day's check-in record; the calculator only looks at `completed`. */
  datatype Checkin = Checkin(completed: bool)

  /** The stored check-in data: one record per date key. */
  type CheckinData = map<int, Checkin>

  /** The dates whose record is marked completed: the filter on `completed`
      over the stored records. Only stored dates can appear. */
  function CompletedDates(data: CheckinData): (c: set<int>)
    ensures c <= data.Keys
    ensures forall d :: d in data ==> (d in c <==> data[d].completed)
  {
    set d | d in data && data[d].completed
  }

  predicate StrictlyDescending(s: seq<int>)
  {
    forall i, j :: 0 <= i < j < |s| ==> s[i] > s[j]
  }

  /** `m` is the most recent date of `s`. */
  predicate IsLatest(s: set<int>, m: int)
  {
    m in s && forall x :: x in s ==> x <= m
  }

  lemma NonEmptyHasElement(s: set<int>)
    requires s != {}
    ensures exists z :: z in s
  {
    if forall z :: z !in s {
      assert false;
    }
  }

  /** Every non-empty finite set of dates has a most recent one. */
  lemma {:induction false} LatestExists(s: set<int>)
    requires s != {}
    ensures exists m :: IsLatest(s, m)
    decreases |s|
  {
    NonEmptyHasElement(s);
    var y :| y in s;
    if s == {y} {
      assert IsLatest(s, y);
    } else {
      var rest := s - {y};
      LatestExists(rest);
      var m :| IsLatest(rest, m);
      forall x | x in s
        ensures x in rest || x == y
      {
      }
      if m < y {
        assert IsLatest(s, y);
      } else {
        assert IsLatest(s, m);
      }
    }
  }

  /** The most recent date of a non-empty set (it is unique). */
  function Latest(s: set<int>): (m: int)
    requires s != {}
    ensures IsLatest(s, m)
  {
    LatestExists(s);
    var m :| IsLatest(s, m);
    m
  }

  /** The dates of `s`, most recent first: the `sort().reverse()` of the keys. */
  function Descending(s: set<int>): (r: seq<int>)
    ensures |r| == |s|
    ensures forall x :: x in r <==> x in s
    ensures StrictlyDescending(r)
    decreases |s|
  {
    if s == {} then []
    else
      var m := Latest(s);
      [m] + Descending(s - {m})
  }

  /** The scan of calculateStreakDays, from position `i` on: positions before `i`
      already matched `today - j`; the scan stops at the first position whose
      date is not `today - i`, or at the end of the list. */
  function RunFrom(dates: seq<int>, today: int, i: nat): (k: nat)
    requires i <= |dates|
    requires forall j :: 0 <= j < i ==> dates[j] == today - j
    ensures i <= k <= |dates|
    ensures forall j :: 0 <= j < k ==> dates[j] == today - j
    ensures k < |dates| ==> dates[k] != today - k
    decreases |dates| - i
  {
    if i == |dates| || dates[i] != today - i then i
    else RunFrom(dates, today, i + 1)
  }

  /** The streak calculateStreakDays reports for `data` on day `today`: never
      more than the number of completed dates, and every day of the run, from
      today - streak + 1 up to today, is completed. */
  function StreakDays(data: CheckinData, today: int): (k: nat)
    ensures k <= |CompletedDates(data)|
    ensures CompletedBack(CompletedDates(data), today, k)
  {
    var c := CompletedDates(data);
    var dates := Descending(c);
    var k := RunFrom(dates, today, 0);
    RunCompletedBack(c, dates, today, k);
    k
  }

  /** A matched prefix of the dates, today, today - 1, ..., is a run of
      completed days ending today. */
  lemma RunCompletedBack(c: set<int>, dates: seq<int>, today: int, k: nat)
    requires forall x :: x in dates <==> x in c
    requires k <= |dates|
    requires forall j :: 0 <= j < k ==> dates[j] == today - j
    ensures CompletedBack(c, today, k)
  {
    forall d | today - k < d <= today
      ensures d in c
    {
      assert dates[today - d] == d;
    }
  }

  /** Every day from today - k + 1 up to today is a completed date. */
  predicate CompletedBack(c: set<int>, today: int, k: int)
  {
    forall d :: today - k < d <= today ==> d in c
  }

  /** calculateStreakDays: filter the completed dates, sort them most recent
      first, and count the leading dates equal to today, today - 1, ...,
      stopping at the first mismatch. */
  method CalculateStreakDays(data: CheckinData, today: int) returns (streak: nat)
    ensures streak == StreakDays(data, today)
    ensures streak <= |CompletedDates(data)|
    ensures CompletedBack(CompletedDates(data), today, streak)
  {
    var dates := Descending(CompletedDates(data));
    if |dates| == 0 {
      return 0;
    }
    streak := 0;
    var i := 0;
    while i < |dates|
      invariant 0 <= i <= |dates|
      invariant streak == i
      invariant forall j :: 0 <= j < i ==> dates[j] == today - j
      invariant RunFrom(dates, today, i) == RunFrom(dates, today, 0)
    {
      if dates[i] == today - i {
        streak := streak + 1;
      } else {
        break;
      }
      i := i + 1;
    }
  }

  /** With no completed record the streak is 0, whatever else is stored. */
  lemma NothingCompletedNoStreak(data: CheckinData, today: int)
    requires forall d :: d in data ==> !data[d].completed
    ensures StreakDays(data, today) == 0
  {
    NoTodayNoStreak(data, today);
  }

  /** Records that are not completed never affect the streak: storing a
      not-completed record at a date that was not completed leaves the
      streak as it was. */
  lemma IncompleteRecordIgnored(data: CheckinData, d: int, rec: Checkin, today: int)
    requires !rec.completed
    requires d in data ==> !data[d].completed
    ensures StreakDays(data[d := rec], today) == StreakDays(data, today)
  {
    assert CompletedDates(data[d := rec]) == CompletedDates(data);
  }

  /** Today must be completed for the streak to be non-zero: a run that ends
      yesterday counts as 0. */
  lemma {:induction false} NoTodayNoStreak(data: CheckinData, today: int)
    requires today !in CompletedDates(data)
    ensures StreakDays(data, today) == 0
  {
    var dates := Descending(CompletedDates(data));
    if |dates| > 0 {
      assert dates[0] in dates;
      assert dates[0] != today - 0;
    }
  }

  /** A completed date in the future sorts first and zeroes the streak, even
      when today is completed too. */
  lemma {:induction false} FutureDateNoStreak(data: CheckinData, today: int, future: int)
    requires future in CompletedDates(data) && future > today
    ensures StreakDays(data, today) == 0
  {
    var dates := Descending(CompletedDates(data));
    assert future in dates;
    var m :| 0 <= m < |dates| && dates[m] == future;
    assert dates[0] >= dates[m];
    assert dates[0] != today - 0;
  }

  /** When no completed date lies in the future, the streak is the number of
      consecutive completed days counted back from today: today, today - 1,
      ..., today - (k - 1) are completed and today - k is not. */
  lemma {:induction false} StreakIsRunBackFromToday(data: CheckinData, today: int)
    requires forall d :: d in CompletedDates(data) ==> d <= today
    ensures CompletedBack(CompletedDates(data), today, StreakDays(data, today))
    ensures today - StreakDays(data, today) !in CompletedDates(data)
  {
    var c := CompletedDates(data);
    var dates := Descending(c);
    var k := StreakDays(data, today);
    forall d | today - k < d <= today
      ensures d in c
    {
      assert dates[today - d] == d;
      assert dates[today - d] in dates;
    }
    if k < |dates| {
      if k == 0 {
        assert dates[0] in dates;
      } else {
        assert dates[k - 1] == today - (k - 1);
      }
      assert dates[k] <= today - k;
    }
    forall m | 0 <= m < |dates|
      ensures dates[m] != today - k
    {
      if m < k {
        assert dates[m] == today - m;
      } else if m > k {
        assert dates[k] > dates[m];
      }
    }
  }

  /** The characterisation above pins the streak down: any run length with the
      same two properties is the streak. */
  lemma {:induction false} StreakUnique(data: CheckinData, today: int, k: nat)
    requires forall d :: d in CompletedDates(data) ==> d <= today
    requires CompletedBack(CompletedDates(data), today, k)
    requires today - k !in CompletedDates(data)
    ensures StreakDays(data, today) == k
  {
    StreakIsRunBackFromToday(data, today);
  }

  /** Only today completed: the streak is 1. */
  lemma TodayOnlyExample(today: int)
    ensures StreakDays(map[today := Checkin(true)], today) == 1
  {
    var data := map[today := Checkin(true)];
    assert CompletedDates(data) == {today};
    StreakUnique(data, today, 1);
  }

  /** Today and yesterday completed, the day before not: the streak is 2. */
  lemma TwoDayExample(today: int)
    ensures StreakDays(map[today := Checkin(true), today - 1 := Checkin(true),
                           today - 2 := Checkin(false)], today) == 2
  {
    var data := map[today := Checkin(true), today - 1 := Checkin(true), today - 2 := Checkin(false)];
    assert CompletedDates(data) == {today, today - 1};
    StreakUnique(data, today, 2);
  }

  /** Only yesterday completed: the streak is 0. */
  lemma YesterdayOnlyExample(today: int)
    ensures StreakDays(map[today - 1 := Checkin(true)], today) == 0
  {
    var data := map[today - 1 := Checkin(true)];
    assert today !in CompletedDates(data);
    NoTodayNoStreak(data, today);
  }
}
