/** The exercise-plan card of the home page (loadExercisePlanVisualization):
    the number of plan days, the number of distinct activity types, and for a
    non-empty plan one row per activity type with its number of days and its
    rounded share of the plan. The plan itself is static configuration and is
    passed in as a parameter. */
module ExercisePlan {
  import opened Rounding

  /** One scheduled day of the plan; `kind` is the entry's activity type
      ("walking", "taichi", "strength", "rest", ...). */
  datatype PlanEntry = PlanEntry(kind: string)

  /** One row of the preview: an activity type, its days and its percentage. */
  datatype TypeShare = TypeShare(kind: string, days: nat, percentage: nat)

  /** The preview area: the "no plan" message, or the list of type rows. */
  datatype PlanPreview = NoPlanMessage | TypeList(shares: seq<TypeShare>)

  /** Everything the card displays. */
  datatype PlanView = PlanView(days: nat, activityTypes: nat, preview: PlanPreview)

  /** The distinct activity types among the first `n` plan days. */
  function TypesBefore(plan: seq<PlanEntry>, n: nat): set<string>
    requires n <= |plan|
  {
    set i | 0 <= i < n :: plan[i].kind
  }

  /** The distinct activity types of the plan: `new Set(plan.map(item => item.type))`.
      It holds the type of every plan day and nothing else. */
  function ActivityTypes(plan: seq<PlanEntry>): (r: set<string>)
    ensures forall i :: 0 <= i < |plan| ==> plan[i].kind in r
    ensures forall t :: t in r ==> exists i :: 0 <= i < |plan| && plan[i].kind == t
  {
    TypesBefore(plan, |plan|)
  }

  /** The number of days of type `t` among the first `n` plan days. */
  function CountBefore(plan: seq<PlanEntry>, n: nat, t: string): nat
    requires n <= |plan|
  {
    if n == 0 then 0
    else CountBefore(plan, n - 1, t) + (if plan[n - 1].kind == t then 1 else 0)
  }

  /** The number of plan days whose type is `t`: at most the plan length, and
      at least 1 exactly for the plan's activity types. */
  function Occurrences(plan: seq<PlanEntry>, t: string): (r: nat)
    ensures r <= |plan|
    ensures r >= 1 <==> t in ActivityTypes(plan)
  {
    OccurrencesAtMost(plan, |plan|, t);
    OccursIffActivityType(plan, |plan|, t);
    CountBefore(plan, |plan|, t)
  }

  /** The activity types of the first `n` plan days, in order of first appearance. */
  function KeysBefore(plan: seq<PlanEntry>, n: nat): seq<string>
    requires n <= |plan|
  {
    if n == 0 then []
    else
      var keys := KeysBefore(plan, n - 1);
      if plan[n - 1].kind in keys then keys else keys + [plan[n - 1].kind]
  }

  /** The activity types in the order they first appear in the plan; this is
      the insertion order that `Object.keys(typeCount)` reports. Each
      activity type is listed exactly once, and the type of the first plan
      day comes first. */
  function FirstAppearance(plan: seq<PlanEntry>): (keys: seq<string>)
    ensures Distinct(keys) && |keys| == |ActivityTypes(plan)|
    ensures forall t :: t in keys <==> t in ActivityTypes(plan)
    ensures |plan| > 0 ==> |keys| > 0 && keys[0] == plan[0].kind
  {
    KeysListTypes(plan, |plan|);
    KeysCountTypes(plan, |plan|);
    if |plan| > 0 then
      FirstDayFirst(plan, |plan|);
      KeysBefore(plan, |plan|)
    else
      KeysBefore(plan, |plan|)
  }

  /** The first-appearance order of the first `n` days, n >= 1, starts with
      the type of the first day. */
  lemma {:induction false} FirstDayFirst(plan: seq<PlanEntry>, n: nat)
    requires 1 <= n <= |plan|
    ensures |KeysBefore(plan, n)| > 0 && KeysBefore(plan, n)[0] == plan[0].kind
  {
    if n > 1 {
      FirstDayFirst(plan, n - 1);
    }
  }

  predicate Distinct(s: seq<string>)
  {
    forall i, j :: 0 <= i < j < |s| ==> s[i] != s[j]
  }

  function Elements(s: seq<string>): set<string>
  {
    set x | x in s
  }

  /** A sequence without repetitions has as many elements as entries. */
  lemma {:induction false} DistinctCardinality(s: seq<string>)
    requires Distinct(s)
    ensures |Elements(s)| == |s|
  {
    if s != [] {
      var init := s[..|s| - 1];
      DistinctCardinality(init);
      assert Elements(s) == Elements(init) + {s[|s| - 1]};
      assert s[|s| - 1] !in Elements(init);
    }
  }

  /** Among the first `n` days, a type occurs exactly when it is one of their
      activity types, and then on at least one day. */
  lemma {:induction false} OccursIffActivityType(plan: seq<PlanEntry>, n: nat, t: string)
    requires n <= |plan|
    ensures t in TypesBefore(plan, n) <==> CountBefore(plan, n, t) >= 1
  {
    if n > 0 {
      OccursIffActivityType(plan, n - 1, t);
      TypesStep(plan, n - 1);
    }
  }

  /** The activity types of the first n + 1 days are those of the first n
      days and the type of day n. */
  lemma TypesStep(plan: seq<PlanEntry>, n: nat)
    requires n < |plan|
    ensures TypesBefore(plan, n + 1) == TypesBefore(plan, n) + {plan[n].kind}
  {
    forall x | x in TypesBefore(plan, n + 1)
      ensures x in TypesBefore(plan, n) + {plan[n].kind}
    {
      var i :| 0 <= i < n + 1 && plan[i].kind == x;
    }
  }

  /** The first-appearance order of the first `n` days lists each of their
      activity types exactly once. */
  lemma {:induction false} KeysListTypes(plan: seq<PlanEntry>, n: nat)
    requires n <= |plan|
    ensures Distinct(KeysBefore(plan, n))
    ensures Elements(KeysBefore(plan, n)) == TypesBefore(plan, n)
  {
    if n > 0 {
      KeysListTypes(plan, n - 1);
      TypesStep(plan, n - 1);
      assert Elements(KeysBefore(plan, n)) == TypesBefore(plan, n);
    }
  }

  /** A type missing from the first-appearance order of the first `n` days
      occurs on none of them. */
  lemma {:induction false} UnlistedNeverCounted(plan: seq<PlanEntry>, n: nat, t: string)
    requires n <= |plan|
    requires t !in KeysBefore(plan, n)
    ensures CountBefore(plan, n, t) == 0
  {
    if n > 0 {
      UnlistedNeverCounted(plan, n - 1, t);
    }
  }

  /** So the length of the first-appearance order is the number of distinct
      activity types. */
  lemma KeysCountTypes(plan: seq<PlanEntry>, n: nat)
    requires n <= |plan|
    ensures |KeysBefore(plan, n)| == |TypesBefore(plan, n)|
  {
    KeysListTypes(plan, n);
    DistinctCardinality(KeysBefore(plan, n));
  }

  /** The sum of the counts `typeCount` holds for `keys`. */
  function TotalCount(keys: seq<string>, typeCount: map<string, nat>): nat
    requires forall k :: k in keys ==> k in typeCount
  {
    if keys == [] then 0
    else TotalCount(keys[..|keys| - 1], typeCount) + typeCount[keys[|keys| - 1]]
  }

  /** Changing the count of a type that is not listed leaves the total alone. */
  lemma {:induction false} TotalCountUnlisted(keys: seq<string>, typeCount: map<string, nat>, t: string, n: nat)
    requires forall k :: k in keys ==> k in typeCount
    requires t !in keys
    ensures TotalCount(keys, typeCount[t := n]) == TotalCount(keys, typeCount)
  {
    if keys != [] {
      TotalCountUnlisted(keys[..|keys| - 1], typeCount, t, n);
    }
  }

  /** Adding one to the count of a type listed once adds one to the total. */
  lemma {:induction false} TotalCountBump(keys: seq<string>, typeCount: map<string, nat>, t: string)
    requires forall k :: k in keys ==> k in typeCount
    requires Distinct(keys) && t in keys
    ensures TotalCount(keys, typeCount[t := typeCount[t] + 1]) == TotalCount(keys, typeCount) + 1
  {
    var init := keys[..|keys| - 1];
    if keys[|keys| - 1] == t {
      assert t !in init;
      TotalCountUnlisted(init, typeCount, t, typeCount[t] + 1);
    } else {
      assert t in init;
      TotalCountBump(init, typeCount, t);
    }
  }

  /** `typeCount` holds, for each of its types, the number of days of that
      type among the first `n` plan days. */
  ghost predicate CountsOf(plan: seq<PlanEntry>, n: nat, typeCount: map<string, nat>)
    requires n <= |plan|
  {
    forall u :: u in typeCount ==> typeCount[u] == CountBefore(plan, n, u)
  }

  /** The dictionary's keys are exactly the listed types. */
  ghost predicate SameKeys(typeCount: map<string, nat>, keys: seq<string>)
  {
    forall u :: u in typeCount <==> u in keys
  }

  /** Setting the count of day n's type to one more than its count among
      the first n days turns the counts of the first n days into those of the
      first n + 1 days. */
  lemma CountsStep(plan: seq<PlanEntry>, n: nat, typeCount: map<string, nat>, c: nat, typeCount': map<string, nat>)
    requires n < |plan|
    requires CountsOf(plan, n, typeCount)
    requires c == CountBefore(plan, n, plan[n].kind) + 1
    requires typeCount' == typeCount[plan[n].kind := c]
    ensures CountsOf(plan, n + 1, typeCount')
  {
  }

  /** Counting a day whose type was already seen adds one to that type; the
      key order stays, and the total grows by one. */
  lemma TallySeen(plan: seq<PlanEntry>, n: nat, keys: seq<string>, typeCount: map<string, nat>)
    requires n < |plan| && keys == KeysBefore(plan, n)
    requires SameKeys(typeCount, keys)
    requires CountsOf(plan, n, typeCount)
    requires TotalCount(keys, typeCount) == n
    requires plan[n].kind in typeCount
    ensures var typeCount' := typeCount[plan[n].kind := typeCount[plan[n].kind] + 1];
      keys == KeysBefore(plan, n + 1)
      && SameKeys(typeCount', keys)
      && CountsOf(plan, n + 1, typeCount')
      && TotalCount(keys, typeCount') == n + 1
  {
    var t := plan[n].kind;
    KeysListTypes(plan, n);
    TotalCountBump(keys, typeCount, t);
    CountsStep(plan, n, typeCount, typeCount[t] + 1, typeCount[t := typeCount[t] + 1]);
  }

  /** Counting a day of a new type appends the type to the key order with a
      count of 1, and the total grows by one. */
  lemma TallyNew(plan: seq<PlanEntry>, n: nat, keys: seq<string>, typeCount: map<string, nat>)
    requires n < |plan| && keys == KeysBefore(plan, n)
    requires SameKeys(typeCount, keys)
    requires CountsOf(plan, n, typeCount)
    requires TotalCount(keys, typeCount) == n
    requires plan[n].kind !in typeCount
    ensures var keys', typeCount' := keys + [plan[n].kind], typeCount[plan[n].kind := 1];
      keys' == KeysBefore(plan, n + 1)
      && SameKeys(typeCount', keys')
      && CountsOf(plan, n + 1, typeCount')
      && TotalCount(keys', typeCount') == n + 1
  {
    var t := plan[n].kind;
    UnlistedNeverCounted(plan, n, t);
    TotalCountUnlisted(keys, typeCount, t, 1);
    assert (keys + [t])[..|keys|] == keys;
    CountsStep(plan, n, typeCount, 1, typeCount[t := 1]);
  }

  /** The tally of the whole plan lists every activity type once, with a
      count of at least one, and the counts add up to the plan length. */
  lemma TallyComplete(plan: seq<PlanEntry>, keys: seq<string>, typeCount: map<string, nat>)
    requires keys == KeysBefore(plan, |plan|)
    requires SameKeys(typeCount, keys)
    requires CountsOf(plan, |plan|, typeCount)
    ensures Distinct(keys) && |keys| == |ActivityTypes(plan)|
    ensures typeCount.Keys == ActivityTypes(plan)
    ensures forall t :: t in typeCount ==> 1 <= typeCount[t] == Occurrences(plan, t)
  {
    KeysListTypes(plan, |plan|);
    KeysCountTypes(plan, |plan|);
    forall t | t in typeCount
      ensures 1 <= typeCount[t]
    {
      OccursIffActivityType(plan, |plan|, t);
    }
    assert typeCount.Keys == Elements(keys);
  }

  /** The `forEach` that fills `typeCount`: one pass over the plan, adding one
      to the entry's type, which starts at 0 the first time it is seen. `keys`
      is the dictionary's key order. Every type of the plan gets a count of at
      least 1, and the counts add up to the number of plan days. */
  method CountByType(plan: seq<PlanEntry>) returns (keys: seq<string>, typeCount: map<string, nat>)
    ensures keys == FirstAppearance(plan)
    ensures Distinct(keys) && |keys| == |ActivityTypes(plan)|
    ensures typeCount.Keys == ActivityTypes(plan)
    ensures forall t :: t in typeCount <==> t in keys
    ensures forall t :: t in typeCount ==> 1 <= typeCount[t] == Occurrences(plan, t)
    ensures TotalCount(keys, typeCount) == |plan|
  {
    keys, typeCount := [], map[];
    var i := 0;
    while i < |plan|
      invariant 0 <= i <= |plan|
      invariant keys == KeysBefore(plan, i)
      invariant SameKeys(typeCount, keys)
      invariant CountsOf(plan, i, typeCount)
      invariant TotalCount(keys, typeCount) == i
    {
      var t := plan[i].kind;
      if t in typeCount {
        TallySeen(plan, i, keys, typeCount);
        typeCount := typeCount[t := typeCount[t] + 1];
      } else {
        TallyNew(plan, i, keys, typeCount);
        keys := keys + [t];
        typeCount := typeCount[t := 1];
      }
      i := i + 1;
    }
    TallyComplete(plan, keys, typeCount);
  }

  /** The total of the days of the rows. */
  function SumDays(shares: seq<TypeShare>): nat
  {
    if shares == [] then 0 else SumDays(shares[..|shares| - 1]) + shares[|shares| - 1].days
  }

  /** The total of the percentages of the rows. */
  function SumPercent(shares: seq<TypeShare>): nat
  {
    if shares == [] then 0 else SumPercent(shares[..|shares| - 1]) + shares[|shares| - 1].percentage
  }

  /** The activity types of the rows, in row order. */
  function RowKinds(shares: seq<TypeShare>): (r: seq<string>)
    ensures |r| == |shares|
  {
    seq(|shares|, j requires 0 <= j < |shares| => shares[j].kind)
  }

  /** The `Object.keys(typeCount).forEach` that emits one preview row per
      type, in key order, with its count and its rounded percentage of
      `total` days. */
  method BuildRows(keys: seq<string>, typeCount: map<string, nat>, total: nat) returns (shares: seq<TypeShare>)
    requires total > 0
    requires forall t :: t in keys ==> t in typeCount
    ensures RowKinds(shares) == keys
    ensures forall m :: 0 <= m < |shares| ==>
      shares[m].kind == keys[m] && shares[m].days == typeCount[keys[m]] && shares[m].percentage == RoundedPercent(shares[m].days, total)
    ensures SumDays(shares) == TotalCount(keys, typeCount)
  {
    shares := [];
    var j := 0;
    while j < |keys|
      invariant 0 <= j <= |keys|
      invariant |shares| == j
      invariant SumDays(shares) == TotalCount(keys[..j], typeCount)
      invariant forall m :: 0 <= m < j ==>
        shares[m] == TypeShare(keys[m], typeCount[keys[m]], RoundedPercent(typeCount[keys[m]], total))
    {
      var t := keys[j];
      var count := typeCount[t];
      assert keys[..j + 1][..j] == keys[..j];
      shares := shares + [TypeShare(t, count, RoundedPercent(count, total))];
      j := j + 1;
    }
    assert keys[..j] == keys;
  }

  /** `row` gives a type of the non-empty plan with its number of days (at
      least one) and its rounded percentage of the plan (at most 100). */
  predicate RowDescribes(plan: seq<PlanEntry>, row: TypeShare)
    requires |plan| > 0
  {
    1 <= row.days == Occurrences(plan, row.kind)
    && row.percentage == RoundedPercent(row.days, |plan|)
    && row.percentage <= 100
  }

  /** loadExercisePlanVisualization: the plan length, the number of distinct
      types, and, for a non-empty plan, one row per type in key order with its
      day count and Math.round(count / length * 100); an empty plan shows the
      "no plan" message instead. */
  method LoadExercisePlanVisualization(plan: seq<PlanEntry>) returns (v: PlanView)
    ensures v.days == |plan|
    ensures v.activityTypes == |ActivityTypes(plan)|
    ensures v.preview.NoPlanMessage? <==> |plan| == 0
    ensures v.preview.TypeList? ==>
      RowKinds(v.preview.shares) == FirstAppearance(plan)
      && |v.preview.shares| == v.activityTypes
      && SumDays(v.preview.shares) == |plan|
      && forall j :: 0 <= j < |v.preview.shares| ==> RowDescribes(plan, v.preview.shares[j])
  {
    var activityTypes := |ActivityTypes(plan)|;
    if |plan| == 0 {
      return PlanView(0, activityTypes, NoPlanMessage);
    }
    var keys, typeCount := CountByType(plan);
    var shares := BuildRows(keys, typeCount, |plan|);
    forall m | 0 <= m < |shares|
      ensures RowDescribes(plan, shares[m])
    {
      OccurrencesAtMost(plan, |plan|, keys[m]);
    }
    v := PlanView(|plan|, activityTypes, TypeList(shares));
  }

  /** No type occurs on more days than there are. */
  lemma {:induction false} OccurrencesAtMost(plan: seq<PlanEntry>, n: nat, t: string)
    requires n <= |plan|
    ensures CountBefore(plan, n, t) <= n
  {
    if n > 0 {
      OccurrencesAtMost(plan, n - 1, t);
    }
  }

  /** Rounding each row separately can make the percentages miss 100, but by
      at most half a point per row: with n rows whose days add up to the plan
      length, 100 - n/2 < total percentage <= 100 + n/2. */
  lemma PercentagesNearHundred(shares: seq<TypeShare>, total: nat)
    requires total > 0
    requires SumDays(shares) == total
    requires forall j :: 0 <= j < |shares| ==>
      IsRoundedPercent(shares[j].days, total, shares[j].percentage)
    ensures 200 - |shares| < 2 * SumPercent(shares) <= 200 + |shares|
  {
    RoundingErrorAdds(shares, total);
    var p := SumPercent(shares);
    assert shares != [];
    CancelFactorAtMost(2 * p - |shares|, 200, total);
    CancelFactor(200, 2 * p + |shares|, total);
  }

  /** The rounding inequalities of the rows add up. */
  lemma {:induction false} RoundingErrorAdds(shares: seq<TypeShare>, total: nat)
    requires total > 0
    requires forall j :: 0 <= j < |shares| ==>
      IsRoundedPercent(shares[j].days, total, shares[j].percentage)
    ensures (2 * SumPercent(shares) - |shares|) * total <= 200 * SumDays(shares)
    ensures 200 * SumDays(shares) <= (2 * SumPercent(shares) + |shares|) * total
    ensures shares != [] ==> 200 * SumDays(shares) < (2 * SumPercent(shares) + |shares|) * total
  {
    if shares != [] {
      var init := shares[..|shares| - 1];
      var last := shares[|shares| - 1];
      RoundingErrorAdds(init, total);
      assert IsRoundedPercent(last.days, total, last.percentage);
      var lo, hi := 2 * SumPercent(init) - |init|, 2 * SumPercent(init) + |init|;
      Distribute(lo, 2 * last.percentage - 1, total);
      Distribute(hi, 2 * last.percentage + 1, total);
    }
  }

  /** A three-day plan of two walking days and one rest day: the rows are
      walking (2 days, 67%) then rest (1 day, 33%), and the percentages add
      up to 100. */
  lemma ThreeDayPlanExample()
    ensures var plan := [PlanEntry("walking"), PlanEntry("walking"), PlanEntry("rest")];
      FirstAppearance(plan) == ["walking", "rest"]
      && Occurrences(plan, "walking") == 2 && RoundedPercent(2, 3) == 67
      && Occurrences(plan, "rest") == 1 && RoundedPercent(1, 3) == 33
      && RoundedPercent(2, 3) + RoundedPercent(1, 3) == 100
  {
    var plan := [PlanEntry("walking"), PlanEntry("walking"), PlanEntry("rest")];
    assert KeysBefore(plan, 1) == ["walking"];
    assert KeysBefore(plan, 2) == ["walking"];
    assert "rest" !in KeysBefore(plan, 2);
    RoundedPercentUnique(2, 3, 67);
    RoundedPercentUnique(1, 3, 33);
  }
}
