/**
 * The student dashboard: the bill it shows, today's menu, the count of present
 * days this month and the figures and rows of the downloadable invoice. The
 * current date and its weekday are parameters.
 */
module Dashboard {
  import opened Common
  import opened Models
  import opened ApiJson
  import opened Sorting
  import opened BillGeneration

  // ---------------------------------------------------------------------------
  // The bill shown
  // ---------------------------------------------------------------------------

  /** `(a, b) => b.id - a.id`: larger ids first. */
  function IdDescending(): (BillJson, BillJson) -> int {
    (a: BillJson, b: BillJson) => b.id - a.id
  }

  /** The bill state after the fetch: the first bill sorted by id descending, or still none. */
  function LatestBill(bills: seq<BillJson>): Option<BillJson> {
    if |bills| > 0 then
      SortPermutation(bills, IdDescending());
      Some(SortWith(bills, IdDescending())[0])
    else None
  }

  /** No bills leave the bill empty; otherwise the bill shown is a fetched bill with the largest id. */
  lemma LatestBillSpec(bills: seq<BillJson>)
    ensures LatestBill(bills).None? <==> bills == []
    ensures LatestBill(bills).Some? ==> LatestBill(bills).value in bills
    ensures LatestBill(bills).Some? ==> forall i :: 0 <= i < |bills| ==> bills[i].id <= LatestBill(bills).value.id
  {
    if bills != [] {
      var s := SortWith(bills, IdDescending());
      SortByKey(bills, IdDescending(), (b: BillJson) => -(b.id as int));
      assert s[0] in multiset(bills);
      forall i | 0 <= i < |bills| ensures bills[i].id <= s[0].id {
        assert bills[i] in multiset(s);
        var j :| 0 <= j < |s| && s[j] == bills[i];
        if j > 0 { assert -(s[0].id as int) <= -(s[j].id as int); }
      }
    }
  }

  // ---------------------------------------------------------------------------
  // Today's menu
  // ---------------------------------------------------------------------------

  /** `menu.find(m => m.day === todayDay)`, with `todayDay` the name of `today`. */
  function TodayMenu(menu: seq<MenuJson>, today: Weekday): (r: Option<MenuJson>)
    ensures r.Some? ==> r.value in menu && r.value.day == today
    ensures r.None? <==> forall i :: 0 <= i < |menu| ==> menu[i].day != today
    ensures r.Some? ==> exists i :: 0 <= i < |menu| && menu[i] == r.value && forall j :: 0 <= j < i ==> menu[j].day != today
  {
    if menu == [] then None
    else if WeekdayName(menu[0].day) == WeekdayName(today) then
      WeekdayNameRoundTrip(menu[0].day);
      WeekdayNameRoundTrip(today);
      Some(menu[0])
    else
      var r := TodayMenu(menu[1..], today);
      assert menu[0].day != today;
      assert forall i :: 0 < i < |menu| ==> menu[i] == menu[1..][i - 1];
      if r.Some? then
        var i :| 0 <= i < |menu[1..]| && menu[1..][i] == r.value && forall j :: 0 <= j < i ==> menu[1..][j].day != today;
        assert menu[i + 1] == r.value;
        r
      else r
  }

  /** Each weekday has at most one menu row, so it is that row which is shown. */
  lemma TodayMenuUnique(menu: seq<MenuJson>, today: Weekday, i: int)
    requires forall a, b :: 0 <= a < b < |menu| ==> menu[a].day != menu[b].day
    requires 0 <= i < |menu| && menu[i].day == today
    ensures TodayMenu(menu, today) == Some(menu[i])
  {
    var r := TodayMenu(menu, today);
    var k :| 0 <= k < |menu| && menu[k] == r.value && forall j :: 0 <= j < k ==> menu[j].day != today;
    if k < i { assert menu[k].day == menu[i].day; }
  }

  // ---------------------------------------------------------------------------
  // Counts over the current month
  // ---------------------------------------------------------------------------

  /** The record is a present day of month `m` of year `y`. */
  function PresentInMonth(y: int, m: int): AttendanceJson -> bool {
    (a: AttendanceJson) => InMonthOf(a.date, y, m) && a.isPresent
  }

  /** The record is a present day of that month with meal `meal`. */
  function MealInMonth(y: int, m: int, meal: string): AttendanceJson -> bool {
    (a: AttendanceJson) => InMonthOf(a.date, y, m) && a.isPresent && a.mealType == meal
  }

  /** `thisMonthPresent` (and the invoice's `pDays`): present records in the current month and year. */
  function ThisMonthPresent(att: seq<AttendanceJson>, today: Date): nat {
    |Filter(att, PresentInMonth(today.year, today.month))|
  }

  /** A student's own records: real dates, one record per date. */
  predicate OwnRecords(att: seq<AttendanceJson>) {
    && (forall i :: 0 <= i < |att| ==> ValidDate(att[i].date))
    && (forall i, j :: 0 <= i < j < |att| ==> att[i].date != att[j].date)
  }

  function DateOf(a: AttendanceJson): Date {
    a.date
  }

  function DayOf(a: AttendanceJson): int {
    a.date.day
  }

  /** With one record per date, a month cannot have more present days than it has days. */
  lemma PresentDaysFitMonth(att: seq<AttendanceJson>, today: Date)
    requires OwnRecords(att) && ValidDate(today)
    ensures ThisMonthPresent(att, today) <= DaysInMonth(today.year, today.month)
  {
    var p := PresentInMonth(today.year, today.month);
    var f := Filter(att, p);
    assert DistinctBy(att, DateOf);
    FilterDistinctBy(att, p, DateOf);
    FilterMembers(att, p);
    var days := Map(f, DayOf);
    forall i | 0 <= i < |f| ensures f[i].date.year == today.year && f[i].date.month == today.month && ValidDate(f[i].date) {
      assert f[i] in att && p(f[i]);
    }
    assert Distinct(days) by {
      forall i, j | 0 <= i < j < |days| ensures days[i] != days[j] {
        assert DateOf(f[i]) != DateOf(f[j]);
      }
    }
    DistinctInRange(days, DaysInMonth(today.year, today.month));
  }

  // ---------------------------------------------------------------------------
  // The invoice
  // ---------------------------------------------------------------------------

  /** The numbers `downloadInvoice` computes before drawing. */
  datatype InvoiceFigures = InvoiceFigures(
    daysInMonth: int, pDays: nat, abDays: int, vegCount: nat, nvCount: nat,
    dailyRate: real, nvPlateRate: real, roomRent: real, water: real, electricity: real, establishment: real,
    foodCost: real, fixedCost: real)

  /** A table row: an item with optional count and rate cells, or the closing total. */
  datatype InvoiceRow =
    | Item(description: string, count: Option<(nat, string)>, rate: Option<real>, amount: real)
    | TotalDue(caption: string, amount: real)

  datatype Invoice = Invoice(figures: InvoiceFigures, rows: seq<InvoiceRow>, fileName: string)

  /** `count * rate` on an item row. */
  function Cost(count: nat, rate: real): real {
    count as real * rate
  }

  /** The invoice's product is the generator's repeated addition. */
  lemma CostIsTimes(count: nat, rate: real)
    ensures Cost(count, rate) == Times(count, rate)
  {
    TimesIsProduct(count, rate);
  }

  /** The figures for `bill`, counted over the current month of `today`. */
  function Figures(bill: BillJson, att: seq<AttendanceJson>, today: Date): (f: InvoiceFigures)
    requires ValidDate(today)
    ensures 28 <= f.daysInMonth <= 31 && f.daysInMonth == DaysInMonth(today.year, today.month)
    ensures f.pDays == ThisMonthPresent(att, today) && f.abDays == f.daysInMonth - f.pDays
    ensures f.vegCount == |Filter(att, MealInMonth(today.year, today.month, VEG))|
    ensures f.nvCount == |Filter(att, MealInMonth(today.year, today.month, NON_VEG))|
    ensures f.vegCount + f.nvCount <= f.pDays
    ensures f.dailyRate == RateOrZero(bill.dailyRate) && f.nvPlateRate == RateOrZero(bill.nvPlateRate)
    ensures f.foodCost == Cost(f.pDays, f.dailyRate) + Cost(f.nvCount, f.nvPlateRate)
    ensures f.fixedCost == f.roomRent + f.water + f.electricity + f.establishment
    ensures f.roomRent == RateOrZero(bill.roomRent) && f.water == RateOrZero(bill.waterCharges)
    ensures f.electricity == RateOrZero(bill.electricityCharges) && f.establishment == RateOrZero(bill.establishmentCharges)
  {
    var y, m := today.year, today.month;
    var daysInMonth := DaysInMonth(y, m);
    var pDays := ThisMonthPresent(att, today);
    var vegCount := |Filter(att, MealInMonth(y, m, VEG))|;
    var nvCount := |Filter(att, MealInMonth(y, m, NON_VEG))|;
    MealCountsWithinPresent(att, y, m);
    var dailyRate, nvPlateRate := RateOrZero(bill.dailyRate), RateOrZero(bill.nvPlateRate);
    var roomRent, water := RateOrZero(bill.roomRent), RateOrZero(bill.waterCharges);
    var electricity, establishment := RateOrZero(bill.electricityCharges), RateOrZero(bill.establishmentCharges);
    InvoiceFigures(
      daysInMonth, pDays, daysInMonth - pDays, vegCount, nvCount,
      dailyRate, nvPlateRate, roomRent, water, electricity, establishment,
      Cost(pDays, dailyRate) + Cost(nvCount, nvPlateRate),
      roomRent + water + electricity + establishment)
  }

  /** A present day has one meal, so Veg and Non-Veg days together are at most the present days. */
  lemma MealCountsWithinPresent(att: seq<AttendanceJson>, y: int, m: int)
    ensures |Filter(att, MealInMonth(y, m, VEG))| + |Filter(att, MealInMonth(y, m, NON_VEG))| <= |Filter(att, PresentInMonth(y, m))|
  {
    var veg, nv, present := MealInMonth(y, m, VEG), MealInMonth(y, m, NON_VEG), PresentInMonth(y, m);
    assert forall a :: veg(a) ==> present(a);
    assert forall a :: nv(a) ==> present(a);
    assert forall a :: !(veg(a) && nv(a));
    FilterDisjoint(att, veg, nv, present);
  }

  /** The seven body rows of the invoice table, in their fixed order. */
  function InvoiceRows(bill: BillJson, f: InvoiceFigures): seq<InvoiceRow> {
    [ Item("Food Charges (Veg/Base)", Some((f.pDays, " Days")), Some(f.dailyRate), Cost(f.pDays, f.dailyRate)),
      Item("Non-Veg Add-ons", Some((f.nvCount, " Plates")), Some(f.nvPlateRate), Cost(f.nvCount, f.nvPlateRate)),
      Item("Room Rent", None, None, f.roomRent),
      Item("Water Charges", None, None, f.water),
      Item("Electricity Charges", None, None, f.electricity),
      Item("Establishment Charges", None, None, f.establishment),
      TotalDue("TOTAL AMOUNT DUE", bill.amount) ]
  }

  /** The sum of the item rows' amounts. */
  function ItemsTotal(rows: seq<InvoiceRow>): real {
    if rows == [] then 0.0
    else (if rows[0].Item? then rows[0].amount else 0.0) + ItemsTotal(rows[1..])
  }

  /** `downloadInvoice`: nothing without a bill; otherwise the figures, rows and file name. */
  function DownloadInvoice(bill: Option<BillJson>, att: seq<AttendanceJson>, today: Date, profile: ProfileJson): (r: Option<Invoice>)
    requires ValidDate(today)
    ensures r.None? <==> bill.None?
    ensures r.Some? ==> r.value.fileName == "Mess_Bill_" + bill.value.month + "_" + profile.regNum + ".pdf"
  {
    if bill.None? then None
    else
      var f := Figures(bill.value, att, today);
      Some(Invoice(f, InvoiceRows(bill.value, f), "Mess_Bill_" + bill.value.month + "_" + profile.regNum + ".pdf"))
  }

  /**
   * The invoice has six item rows and a total; the items add up to the
   * food and fixed costs, while the total row shows the stored bill amount.
   */
  lemma InvoiceRowsSpec(bill: BillJson, att: seq<AttendanceJson>, today: Date, profile: ProfileJson)
    requires ValidDate(today)
    ensures var inv := DownloadInvoice(Some(bill), att, today, profile).value;
      && |inv.rows| == 7
      && (forall i :: 0 <= i < 6 ==> inv.rows[i].Item?)
      && inv.rows[6] == TotalDue("TOTAL AMOUNT DUE", bill.amount)
      && ItemsTotal(inv.rows) == inv.figures.foodCost + inv.figures.fixedCost
  {
    ItemsTotalOfRows(bill, Figures(bill, att, today));
  }

  lemma ItemsTotalOfRows(bill: BillJson, f: InvoiceFigures)
    ensures ItemsTotal(InvoiceRows(bill, f)) ==
      Cost(f.pDays, f.dailyRate) + Cost(f.nvCount, f.nvPlateRate) + (f.roomRent + f.water + f.electricity + f.establishment)
  {
    var rs := InvoiceRows(bill, f);
    assert rs[6..] == [rs[6]] && rs[6..][1..] == [];
    assert ItemsTotal(rs[6..]) == 0.0;
    assert ItemsTotal(rs[5..]) == rs[5].amount by { assert rs[5..][1..] == rs[6..]; }
    assert ItemsTotal(rs[4..]) == rs[4].amount + rs[5].amount by { assert rs[4..][1..] == rs[5..]; }
    assert ItemsTotal(rs[3..]) == rs[3].amount + rs[4].amount + rs[5].amount by { assert rs[3..][1..] == rs[4..]; }
    assert ItemsTotal(rs[2..]) == rs[2].amount + rs[3].amount + rs[4].amount + rs[5].amount by { assert rs[2..][1..] == rs[3..]; }
    assert ItemsTotal(rs[1..]) == rs[1].amount + rs[2].amount + rs[3].amount + rs[4].amount + rs[5].amount by {
      assert rs[1..][1..] == rs[2..];
    }
  }

  /** The rates a bill object carries, absent ones read as zero. */
  function JsonRates(bill: BillJson): Rates {
    Rates(RateOrZero(bill.dailyRate), RateOrZero(bill.nvPlateRate), RateOrZero(bill.roomRent),
          RateOrZero(bill.waterCharges), RateOrZero(bill.electricityCharges), RateOrZero(bill.establishmentCharges))
  }

  /**
   * When the bill was generated from the same day counts the invoice sees,
   * the itemised rows add up to the total row.
   */
  lemma InvoiceMatchesBill(bill: BillJson, att: seq<AttendanceJson>, today: Date, profile: ProfileJson)
    requires ValidDate(today)
    requires bill.amount == Amount(ThisMonthPresent(att, today),
                                   |Filter(att, MealInMonth(today.year, today.month, NON_VEG))|, JsonRates(bill))
    ensures var inv := DownloadInvoice(Some(bill), att, today, profile).value;
      ItemsTotal(inv.rows) == inv.rows[6].amount
  {
    var f := Figures(bill, att, today);
    CostIsTimes(f.pDays, f.dailyRate);
    CostIsTimes(f.nvCount, f.nvPlateRate);
    assert bill.amount == f.foodCost + f.fixedCost;
    InvoiceRowsSpec(bill, att, today, profile);
  }

  /**
   * The counts come from the current month, not from the bill's month: a
   * January bill of 1534 downloaded in February itemises no days at all
   * while its total row still shows 1534.
   */
  lemma InvoiceCountsCurrentMonth(profile: ProfileJson)
    ensures var bill := BillJson(1, 7, "21CS001", "ravi", "2025-01", 1534.0, false,
                                 Some(65.0), Some(27.0), Some(150.0), Some(125.0), Some(150.0), Some(275.0));
      var att := [AttendanceJson(1, 7, Date(2025, 1, 10), true, VEG)];
      var inv := DownloadInvoice(Some(bill), att, Date(2025, 2, 3), profile).value;
      && inv.figures.pDays == 0
      && inv.rows[0].amount == 0.0
      && inv.rows[6] == TotalDue("TOTAL AMOUNT DUE", 1534.0)
      && ItemsTotal(inv.rows) != inv.rows[6].amount
  {
    var bill := BillJson(1, 7, "21CS001", "ravi", "2025-01", 1534.0, false,
                         Some(65.0), Some(27.0), Some(150.0), Some(125.0), Some(150.0), Some(275.0));
    var att := [AttendanceJson(1, 7, Date(2025, 1, 10), true, VEG)];
    var today := Date(2025, 2, 3);
    assert !PresentInMonth(2025, 2)(att[0]);
    assert Filter(att, PresentInMonth(2025, 2)) == [] by { assert att[1..] == []; }
    assert Filter(att, MealInMonth(2025, 2, NON_VEG)) == [] by {
      assert !MealInMonth(2025, 2, NON_VEG)(att[0]);
      assert att[1..] == [];
    }
    InvoiceRowsSpec(bill, att, today, profile);
  }
}
