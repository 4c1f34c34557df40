/**
 * The student's attendance page: today's-mark check, the month buckets built
 * by folding over the student's records, the month order (most recent first),
 * the per-month percentage and the rows of one bucket.
 */
module AttendancePage {
  import opened Common
  import opened Parsing
  import opened ApiJson
  import opened Sorting

  /** Every record date is a real date with a four-digit year, as the date field serialises it. */
  predicate ServedDates(att: seq<AttendanceJson>) {
    forall i :: 0 <= i < |att| ==> ValidDate(att[i].date) && 1 <= att[i].date.year <= 9999
  }

  // ---------------------------------------------------------------------------
  // isMarkedToday
  // ---------------------------------------------------------------------------

  /** `attendance.some(a => a.date === todayStr)` on the records' `YYYY-MM-DD` text. */
  function SomeOnDate(att: seq<AttendanceJson>, todayStr: string): bool
    requires ServedDates(att)
  {
    if att == [] then false
    else FormatIsoDate(att[0].date) == todayStr || SomeOnDate(att[1..], todayStr)
  }

  /** `isMarkedToday`, with `today` the date whose `toISOString` prefix is `todayStr`. */
  function IsMarkedToday(att: seq<AttendanceJson>, today: Date): bool
    requires ServedDates(att) && ValidDate(today) && 1 <= today.year <= 9999
  {
    SomeOnDate(att, FormatIsoDate(today))
  }

  lemma {:induction false} SomeOnDateIff(att: seq<AttendanceJson>, todayStr: string)
    requires ServedDates(att)
    ensures SomeOnDate(att, todayStr) <==> exists i :: 0 <= i < |att| && FormatIsoDate(att[i].date) == todayStr
  {
    if att != [] {
      var rest := att[1..];
      assert ServedDates(rest) by {
        forall i | 0 <= i < |rest| ensures ValidDate(rest[i].date) && 1 <= rest[i].date.year <= 9999 {
          assert rest[i] == att[i + 1];
        }
      }
      SomeOnDateIff(rest, todayStr);
      if exists i :: 0 <= i < |att| && FormatIsoDate(att[i].date) == todayStr {
        var i :| 0 <= i < |att| && FormatIsoDate(att[i].date) == todayStr;
        if i > 0 { assert rest[i - 1] == att[i]; }
      }
      if exists i :: 0 <= i < |rest| && FormatIsoDate(rest[i].date) == todayStr {
        var i :| 0 <= i < |rest| && FormatIsoDate(rest[i].date) == todayStr;
        assert att[i + 1] == rest[i];
      }
    }
  }

  /** Today counts as marked exactly when some record is dated today. */
  lemma IsMarkedTodayIff(att: seq<AttendanceJson>, today: Date)
    requires ServedDates(att) && ValidDate(today) && 1 <= today.year <= 9999
    ensures IsMarkedToday(att, today) <==> exists i :: 0 <= i < |att| && att[i].date == today
  {
    SomeOnDateIff(att, FormatIsoDate(today));
    forall i | 0 <= i < |att| ensures FormatIsoDate(att[i].date) == FormatIsoDate(today) <==> att[i].date == today {
      FormatIsoDateInjective(att[i].date, today);
    }
  }

  // ---------------------------------------------------------------------------
  // Month buckets
  // ---------------------------------------------------------------------------

  /**
   * A bucket's key, the `"<month name> <year>"` label of the record's date;
   * the label and the (year, month) pair determine each other.
   */
  datatype MonthKey = MonthKey(year: int, month: int)

  function KeyOf(r: AttendanceJson): MonthKey {
    MonthKey(r.date.year, r.date.month)
  }

  /** The record belongs to month `k`. */
  function InMonth(k: MonthKey): AttendanceJson -> bool {
    (r: AttendanceJson) => KeyOf(r) == k
  }

  /** The record belongs to month `k` and is a present day. */
  function PresentIn(k: MonthKey): AttendanceJson -> bool {
    (r: AttendanceJson) => KeyOf(r) == k && r.isPresent
  }

  function IsPresent(r: AttendanceJson): bool {
    r.isPresent
  }

  /** One bucket: its records in arrival order and its two counters. */
  datatype Group = Group(records: seq<AttendanceJson>, presentCount: nat, totalCount: nat)

  /** The accumulator object: its keys in insertion order (`Object.keys`) and its buckets. */
  datatype Grouping = Grouping(keys: seq<MonthKey>, groups: map<MonthKey, Group>)

  /** One step of the `reduce`: create the bucket if missing, push the record, bump the counters. */
  function AddRecord(g: Grouping, r: AttendanceJson): Grouping {
    var k := KeyOf(r);
    var b := if k in g.groups then g.groups[k] else Group([], 0, 0);
    Grouping(if k in g.groups then g.keys else g.keys + [k],
             g.groups[k := Group(b.records + [r], b.presentCount + (if r.isPresent then 1 else 0), b.totalCount + 1)])
  }

  /** `groupedAttendance`: the `reduce` over the records from the empty object. */
  function Grouped(rs: seq<AttendanceJson>): Grouping
    decreases |rs|
  {
    if rs == [] then Grouping([], map[])
    else AddRecord(Grouped(rs[..|rs| - 1]), rs[|rs| - 1])
  }

  /**
   * What the buckets mean: the keys are distinct and are the buckets' keys;
   * the bucket of month `k` holds exactly the records of month `k` in their
   * order, its total is their number and its present count the number of
   * present ones; a month with no bucket has no records.
   */
  ghost predicate GroupsOf(rs: seq<AttendanceJson>, g: Grouping) {
    && Distinct(g.keys)
    && (forall k :: k in g.groups <==> k in g.keys)
    && (forall k :: k in g.groups ==>
          && g.groups[k].records == Filter(rs, InMonth(k))
          && g.groups[k].totalCount == |Filter(rs, InMonth(k))|
          && g.groups[k].presentCount == |Filter(rs, PresentIn(k))|
          && 1 <= g.groups[k].totalCount)
    && (forall k :: k !in g.groups ==> Filter(rs, InMonth(k)) == [])
  }

  /** The `reduce` of `Attendance.jsx`, updating its accumulator in place. */
  method GroupAttendance(attendance: seq<AttendanceJson>) returns (keys: seq<MonthKey>, groups: map<MonthKey, Group>)
    ensures Grouping(keys, groups) == Grouped(attendance)
    ensures GroupsOf(attendance, Grouping(keys, groups))
  {
    keys, groups := [], map[];
    var i := 0;
    while i < |attendance|
      invariant 0 <= i <= |attendance|
      invariant Grouping(keys, groups) == Grouped(attendance[..i])
    {
      var record := attendance[i];
      var k := KeyOf(record);
      ghost var before := Grouping(keys, groups);
      if k !in groups {
        groups := groups[k := Group([], 0, 0)];
        keys := keys + [k];
      }
      groups := groups[k := groups[k].(records := groups[k].records + [record])];
      groups := groups[k := groups[k].(totalCount := groups[k].totalCount + 1)];
      if record.isPresent {
        groups := groups[k := groups[k].(presentCount := groups[k].presentCount + 1)];
      }
      assert Grouping(keys, groups) == AddRecord(before, record);
      assert attendance[..i + 1][..i] == attendance[..i];
      i := i + 1;
    }
    assert attendance[..i] == attendance;
    GroupedSpec(attendance);
  }

  /** The fold builds exactly the buckets `GroupsOf` describes. */
  lemma {:induction false} GroupedSpec(rs: seq<AttendanceJson>)
    ensures GroupsOf(rs, Grouped(rs))
    decreases |rs|
  {
    if rs != [] {
      var init, x := rs[..|rs| - 1], rs[|rs| - 1];
      assert rs == init + [x];
      GroupedSpec(init);
      AddRecordSpec(init, x, Grouped(init));
    }
  }

  lemma AddRecordSpec(init: seq<AttendanceJson>, x: AttendanceJson, g0: Grouping)
    requires GroupsOf(init, g0)
    ensures GroupsOf(init + [x], AddRecord(g0, x))
  {
    var g, k0 := AddRecord(g0, x), KeyOf(x);
    if k0 !in g0.groups {
      assert k0 !in g0.keys;
      forall i, j | 0 <= i < j < |g.keys| ensures g.keys[i] != g.keys[j] {
        if j == |g0.keys| { assert g0.keys[i] in g0.keys; }
      }
    }
    forall k | k in g.groups
      ensures g.groups[k].records == Filter(init + [x], InMonth(k))
      ensures g.groups[k].totalCount == |Filter(init + [x], InMonth(k))|
      ensures g.groups[k].presentCount == |Filter(init + [x], PresentIn(k))|
      ensures 1 <= g.groups[k].totalCount
    {
      BucketStep(init, x, g0, k);
    }
    forall k | k !in g.groups ensures Filter(init + [x], InMonth(k)) == [] {
      FilterStep(init, x, k);
    }
  }

  /** The bucket of one month after a step. */
  lemma BucketStep(init: seq<AttendanceJson>, x: AttendanceJson, g0: Grouping, k: MonthKey)
    requires GroupsOf(init, g0)
    requires k in AddRecord(g0, x).groups
    ensures AddRecord(g0, x).groups[k].records == Filter(init + [x], InMonth(k))
    ensures AddRecord(g0, x).groups[k].totalCount == |Filter(init + [x], InMonth(k))|
    ensures AddRecord(g0, x).groups[k].presentCount == |Filter(init + [x], PresentIn(k))|
    ensures 1 <= AddRecord(g0, x).groups[k].totalCount
  {
    FilterStep(init, x, k);
    var b := AddRecord(g0, x).groups[k];
    if k != KeyOf(x) {
      assert b == g0.groups[k];
    } else if k in g0.groups {
      var b0 := g0.groups[k];
      assert b == Group(b0.records + [x], b0.presentCount + (if x.isPresent then 1 else 0), b0.totalCount + 1);
    } else {
      assert Filter(init, InMonth(k)) == [];
      FilterMonotone(init, PresentIn(k), InMonth(k));
      assert b == Group([x], if x.isPresent then 1 else 0, 1);
    }
  }

  /** Appending a record adds it to its own month's selections and to no other. */
  lemma FilterStep(init: seq<AttendanceJson>, x: AttendanceJson, k: MonthKey)
    ensures Filter(init + [x], InMonth(k)) == Filter(init, InMonth(k)) + (if k == KeyOf(x) then [x] else [])
    ensures Filter(init + [x], PresentIn(k)) == Filter(init, PresentIn(k)) + (if k == KeyOf(x) && x.isPresent then [x] else [])
  {
    FilterAppend(init, x, InMonth(k));
    FilterAppend(init, x, PresentIn(k));
    assert InMonth(k)(x) == (k == KeyOf(x));
    assert PresentIn(k)(x) == (k == KeyOf(x) && x.isPresent);
  }

  /** Every record lands in the bucket of its own month. */
  lemma RecordInItsBucket(rs: seq<AttendanceJson>, i: int)
    requires 0 <= i < |rs|
    ensures KeyOf(rs[i]) in Grouped(rs).groups
    ensures rs[i] in Grouped(rs).groups[KeyOf(rs[i])].records
  {
    GroupedSpec(rs);
    FilterMembers(rs, InMonth(KeyOf(rs[i])));
    assert InMonth(KeyOf(rs[i]))(rs[i]);
  }

  /** Every bucket has at least one record and no more present days than records. */
  lemma BucketCountsBounded(rs: seq<AttendanceJson>, k: MonthKey)
    requires k in Grouped(rs).groups
    ensures 1 <= Grouped(rs).groups[k].totalCount
    ensures Grouped(rs).groups[k].presentCount <= Grouped(rs).groups[k].totalCount
  {
    GroupedSpec(rs);
    FilterMonotone(rs, PresentIn(k), InMonth(k));
  }

  // ---------------------------------------------------------------------------
  // Totals over the buckets
  // ---------------------------------------------------------------------------

  function Count(b: Group, present: bool): nat {
    if present then b.presentCount else b.totalCount
  }

  /** The sum of one counter over the buckets named by `keys`. */
  function SumCounts(keys: seq<MonthKey>, groups: map<MonthKey, Group>, present: bool): nat {
    if keys == [] then 0
    else (if keys[0] in groups then Count(groups[keys[0]], present) else 0) + SumCounts(keys[1..], groups, present)
  }

  lemma {:induction false} SumUpdateElsewhere(keys: seq<MonthKey>, groups: map<MonthKey, Group>, k: MonthKey, b: Group, present: bool)
    requires k !in keys
    ensures SumCounts(keys, groups[k := b], present) == SumCounts(keys, groups, present)
  {
    if keys != [] {
      assert keys[0] != k;
      SumUpdateElsewhere(keys[1..], groups, k, b, present);
    }
  }

  lemma {:induction false} SumUpdateOnce(keys: seq<MonthKey>, groups: map<MonthKey, Group>, k: MonthKey, b: Group, present: bool)
    requires Distinct(keys) && k in keys && k in groups
    ensures SumCounts(keys, groups[k := b], present) == SumCounts(keys, groups, present) - Count(groups[k], present) + Count(b, present)
  {
    var rest := keys[1..];
    assert Distinct(rest) by {
      forall i, j | 0 <= i < j < |rest| ensures rest[i] != rest[j] {
        assert rest[i] == keys[i + 1] && rest[j] == keys[j + 1];
      }
    }
    if keys[0] == k {
      assert k !in rest by {
        forall i | 0 <= i < |rest| ensures rest[i] != k { assert rest[i] == keys[i + 1]; }
      }
      SumUpdateElsewhere(rest, groups, k, b, present);
    } else {
      assert k in rest by {
        var i :| 0 <= i < |keys| && keys[i] == k;
        assert rest[i - 1] == k;
      }
      SumUpdateOnce(rest, groups, k, b, present);
    }
  }

  lemma {:induction false} SumAppend(keys: seq<MonthKey>, k: MonthKey, groups: map<MonthKey, Group>, present: bool)
    ensures SumCounts(keys + [k], groups, present) == SumCounts(keys, groups, present) + (if k in groups then Count(groups[k], present) else 0)
  {
    if keys != [] {
      assert (keys + [k])[1..] == keys[1..] + [k];
      SumAppend(keys[1..], k, groups, present);
    } else {
      assert [k][1..] == [];
    }
  }

  /**
   * Over all buckets, the totals add up to the number of records and the
   * present counts to the number of present records.
   */
  lemma {:induction false} GroupedSums(rs: seq<AttendanceJson>)
    ensures SumCounts(Grouped(rs).keys, Grouped(rs).groups, false) == |rs|
    ensures SumCounts(Grouped(rs).keys, Grouped(rs).groups, true) == |Filter(rs, IsPresent)|
    decreases |rs|
  {
    if rs != [] {
      var init, x := rs[..|rs| - 1], rs[|rs| - 1];
      assert rs == init + [x];
      GroupedSums(init);
      GroupedSpec(init);
      FilterAppend(init, x, IsPresent);
      AddRecordSums(Grouped(init), x, false);
      AddRecordSums(Grouped(init), x, true);
    }
  }

  /** A step adds one to the total and, for a present record, one to the present count. */
  lemma AddRecordSums(g0: Grouping, x: AttendanceJson, present: bool)
    requires Distinct(g0.keys) && forall k :: k in g0.groups <==> k in g0.keys
    ensures SumCounts(AddRecord(g0, x).keys, AddRecord(g0, x).groups, present) ==
      SumCounts(g0.keys, g0.groups, present) + (if !present || x.isPresent then 1 else 0)
  {
    var k := KeyOf(x);
    var b := if k in g0.groups then g0.groups[k] else Group([], 0, 0);
    var nb := Group(b.records + [x], b.presentCount + (if x.isPresent then 1 else 0), b.totalCount + 1);
    if k in g0.groups {
      SumUpdateOnce(g0.keys, g0.groups, k, nb, present);
    } else {
      SumUpdateElsewhere(g0.keys, g0.groups, k, nb, present);
      SumAppend(g0.keys, k, g0.groups[k := nb], present);
    }
  }

  // ---------------------------------------------------------------------------
  // Month order, percentage and rows
  // ---------------------------------------------------------------------------

  /** The months since year 0 at which the month starts; `new Date(label)` is its first day. */
  function MonthIndex(k: MonthKey): int {
    k.year * 12 + (k.month - 1)
  }

  /** `(a, b) => new Date(b) - new Date(a)`, whose sign is that of the month difference. */
  function NewestFirst(): (MonthKey, MonthKey) -> int {
    (a: MonthKey, b: MonthKey) => MonthIndex(b) - MonthIndex(a)
  }

  /** `sortedMonths`. */
  function SortedMonths(keys: seq<MonthKey>): seq<MonthKey> {
    SortWith(keys, NewestFirst())
  }

  /**
   * The months shown are exactly the months that have records, each once,
   * most recent first.
   */
  lemma SortedMonthsSpec(rs: seq<AttendanceJson>)
    ensures multiset(SortedMonths(Grouped(rs).keys)) == multiset(Grouped(rs).keys)
    ensures forall k :: k in SortedMonths(Grouped(rs).keys) <==> exists i :: 0 <= i < |rs| && KeyOf(rs[i]) == k
    ensures forall i, j :: 0 <= i < j < |SortedMonths(Grouped(rs).keys)| ==>
      MonthIndex(SortedMonths(Grouped(rs).keys)[i]) >= MonthIndex(SortedMonths(Grouped(rs).keys)[j])
  {
    var g := Grouped(rs);
    SortByKey(g.keys, NewestFirst(), (k: MonthKey) => -MonthIndex(k));
    GroupedSpec(rs);
    forall k ensures k in SortedMonths(g.keys) <==> exists i :: 0 <= i < |rs| && KeyOf(rs[i]) == k {
      SortMembers(g.keys, NewestFirst(), k);
      FilterMembers(rs, InMonth(k));
      if exists i :: 0 <= i < |rs| && KeyOf(rs[i]) == k {
        var i :| 0 <= i < |rs| && KeyOf(rs[i]) == k;
        assert InMonth(k)(rs[i]);
        assert rs[i] in Filter(rs, InMonth(k));
      }
      if k in g.groups {
        var r := Filter(rs, InMonth(k));
        assert r[0] in rs && InMonth(k)(r[0]);
      }
    }
  }

  /**
   * `Math.round((presentCount / totalCount) * 100)` on exact numbers: the
   * nearest whole percentage, halves rounded up.
   */
  function Percentage(presentCount: nat, totalCount: nat): (r: int)
    requires 1 <= totalCount
    ensures 2 * totalCount * r <= 200 * presentCount + totalCount < 2 * totalCount * (r + 1)
    ensures presentCount <= totalCount ==> 0 <= r <= 100
    ensures presentCount == totalCount ==> r == 100
    ensures presentCount == 0 ==> r == 0
  {
    RoundedPercentage(presentCount, totalCount);
    (200 * presentCount + totalCount) / (2 * totalCount)
  }

  lemma RoundedPercentage(p: nat, t: nat)
    requires 1 <= t
    ensures 2 * t * ((200 * p + t) / (2 * t)) <= 200 * p + t < 2 * t * ((200 * p + t) / (2 * t) + 1)
    ensures p <= t ==> 0 <= (200 * p + t) / (2 * t) <= 100
    ensures p == t ==> (200 * p + t) / (2 * t) == 100
    ensures p == 0 ==> (200 * p + t) / (2 * t) == 0
  {
    var n, d := 200 * p + t, 2 * t;
    var q := n / d;
    assert n == d * q + n % d;
    assert d * (q + 1) == d * q + d;
    if p <= t { DivBelow(n, d, 101); }
    if p == t { DivUnique(n, d, 100, t); }
    if p == 0 { DivUnique(n, d, 0, t); }
  }

  /** The Meal cell: `meal_type || '-'`. */
  function MealLabel(mealType: string): (r: string)
    ensures r != ""
    ensures mealType != "" ==> r == mealType
  {
    if mealType == "" then "-" else mealType
  }

  /** The bucket's table rows: `[...records].reverse()`. */
  function BucketRows(b: Group): seq<AttendanceJson> {
    Reverse(b.records)
  }

  /** A bucket lists its month's records latest-arrived first: the reverse of their input order. */
  lemma BucketRowsReversed(rs: seq<AttendanceJson>, k: MonthKey)
    requires k in Grouped(rs).groups
    ensures BucketRows(Grouped(rs).groups[k]) == Reverse(Filter(rs, InMonth(k)))
    ensures 1 <= |BucketRows(Grouped(rs).groups[k])|
  {
    GroupedSpec(rs);
  }
}
