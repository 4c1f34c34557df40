/**
 * The database schema of the mess application: users, student profiles, the
 * weekly menu, daily attendance and monthly bills, with the field domains,
 * defaults and uniqueness constraints the schema declares.
 */
module Models {
  import opened Common

  // ---------------------------------------------------------------------------
  // Users and student profiles
  // ---------------------------------------------------------------------------

  /** An account; `isStudent` and `isStaffMember` are the two role flags. */
  datatype User = User(id: nat, username: string, email: string, isStudent: bool, isStaffMember: bool)

  /**
   * A student profile. Its primary key is the owning user's id (`user`), so a
   * user has at most one profile and the profile's id is that user id.
   */
  datatype StudentProfile = StudentProfile(user: nat, regNum: string, branch: string, year: int, phone: Option<string>)

  /** The declared maximum lengths of the profile's text columns. */
  predicate ProfileFieldsFit(p: StudentProfile) {
    |p.regNum| <= 20 && |p.branch| <= 50 && (p.phone.Some? ==> |p.phone.value| <= 15)
  }

  /** The profile table: one profile per user, `reg_num` unique, columns within their lengths. */
  predicate ValidProfiles(ps: seq<StudentProfile>) {
    && (forall i, j :: 0 <= i < j < |ps| ==> ps[i].user != ps[j].user && ps[i].regNum != ps[j].regNum)
    && (forall i :: 0 <= i < |ps| ==> ProfileFieldsFit(ps[i]))
  }

  /** The profiles whose `reg_num` is `reg` (`StudentProfile.objects.filter(reg_num=reg)`). */
  function ProfilesWithReg(ps: seq<StudentProfile>, reg: string): seq<StudentProfile> {
    Filter(ps, (p: StudentProfile) => p.regNum == reg)
  }

  /** Because `reg_num` is unique, a registration number names at most one profile. */
  lemma {:induction false} RegNumIdentifiesOneProfile(ps: seq<StudentProfile>, reg: string)
    requires ValidProfiles(ps)
    ensures |ProfilesWithReg(ps, reg)| <= 1
    ensures forall i :: 0 <= i < |ps| && ps[i].regNum == reg ==> ProfilesWithReg(ps, reg) == [ps[i]]
  {
    if ps != [] {
      var rest := ps[1..];
      assert ValidProfiles(rest) by {
        forall i, j | 0 <= i < j < |rest|
          ensures rest[i].user != rest[j].user && rest[i].regNum != rest[j].regNum
        {
          assert rest[i] == ps[i + 1] && rest[j] == ps[j + 1];
        }
      }
      RegNumIdentifiesOneProfile(rest, reg);
      if ps[0].regNum == reg {
        assert forall i :: 0 <= i < |rest| ==> rest[i].regNum != reg by {
          forall i | 0 <= i < |rest| ensures rest[i].regNum != reg {
            assert rest[i] == ps[i + 1];
          }
        }
        FilterNone(rest, (p: StudentProfile) => p.regNum == reg);
      } else {
        forall i | 0 <= i < |ps| && ps[i].regNum == reg
          ensures ProfilesWithReg(ps, reg) == [ps[i]]
        {
          assert rest[i - 1] == ps[i];
        }
      }
    }
  }

  // ---------------------------------------------------------------------------
  // Weekly menu
  // ---------------------------------------------------------------------------

  /** The seven values the menu's `day` column may take. */
  datatype Weekday = Monday | Tuesday | Wednesday | Thursday | Friday | Saturday | Sunday

  function WeekdayName(d: Weekday): string {
    match d
    case Monday => "Monday"
    case Tuesday => "Tuesday"
    case Wednesday => "Wednesday"
    case Thursday => "Thursday"
    case Friday => "Friday"
    case Saturday => "Saturday"
    case Sunday => "Sunday"
  }

  /** The choice check on `day`: only the seven weekday names are accepted. */
  function ParseWeekday(s: string): (r: Option<Weekday>)
    ensures r.Some? ==> WeekdayName(r.value) == s
  {
    if s == "Monday" then Some(Monday)
    else if s == "Tuesday" then Some(Tuesday)
    else if s == "Wednesday" then Some(Wednesday)
    else if s == "Thursday" then Some(Thursday)
    else if s == "Friday" then Some(Friday)
    else if s == "Saturday" then Some(Saturday)
    else if s == "Sunday" then Some(Sunday)
    else None
  }

  /** Every weekday's stored name is accepted back as that weekday, so names never collide. */
  lemma WeekdayNameRoundTrip(d: Weekday)
    ensures ParseWeekday(WeekdayName(d)) == Some(d)
  {
  }

  /** A menu row: one weekday and three free-text meal descriptions. */
  datatype MenuRow = MenuRow(id: nat, day: Weekday, breakfast: string, lunch: string, dinner: string)

  /** The menu table: `day` is unique, and so is the row id. */
  predicate ValidMenu(ms: seq<MenuRow>) {
    forall i, j :: 0 <= i < j < |ms| ==> ms[i].day != ms[j].day && ms[i].id != ms[j].id
  }

  /** Since `day` is unique and has seven values, the menu has at most seven rows. */
  lemma {:induction false} MenuHasAtMostSevenRows(ms: seq<MenuRow>)
    requires ValidMenu(ms)
    ensures |ms| <= 7
  {
    var days := DaysOf(ms);
    assert days <= {Monday, Tuesday, Wednesday, Thursday, Friday, Saturday, Sunday} by {
      forall d | d in days
        ensures d in {Monday, Tuesday, Wednesday, Thursday, Friday, Saturday, Sunday}
      {
        match d
        case Monday =>
        case Tuesday =>
        case Wednesday =>
        case Thursday =>
        case Friday =>
        case Saturday =>
        case Sunday =>
      }
    }
    assert |{Monday, Tuesday, Wednesday, Thursday, Friday, Saturday, Sunday}| == 7;
    SubsetCardinality(days, {Monday, Tuesday, Wednesday, Thursday, Friday, Saturday, Sunday});
    DistinctDaysCount(ms);
  }

  /** The weekdays the menu rows cover. */
  function DaysOf(ms: seq<MenuRow>): set<Weekday> {
    set i | 0 <= i < |ms| :: ms[i].day
  }

  lemma {:induction false} DistinctDaysCount(ms: seq<MenuRow>)
    requires ValidMenu(ms)
    ensures |DaysOf(ms)| == |ms|
  {
    if ms != [] {
      var rest := ms[..|ms| - 1];
      assert ValidMenu(rest);
      DistinctDaysCount(rest);
      DaysOfSnoc(ms);
    }
  }

  /** Adding a row whose day is new adds exactly that day. */
  lemma DaysOfSnoc(ms: seq<MenuRow>)
    requires ms != [] && ValidMenu(ms)
    ensures DaysOf(ms) == DaysOf(ms[..|ms| - 1]) + {ms[|ms| - 1].day}
    ensures ms[|ms| - 1].day !in DaysOf(ms[..|ms| - 1])
  {
    var rest, last := ms[..|ms| - 1], ms[|ms| - 1];
    forall d | d in DaysOf(ms) ensures d in DaysOf(rest) + {last.day} {
      var i :| 0 <= i < |ms| && ms[i].day == d;
      if i < |ms| - 1 { assert rest[i].day == d; }
    }
    forall d | d in DaysOf(rest) ensures d in DaysOf(ms) && d != last.day {
      var i :| 0 <= i < |rest| && rest[i].day == d;
      assert ms[i].day == d;
    }
  }

  // ---------------------------------------------------------------------------
  // Attendance
  // ---------------------------------------------------------------------------

  const VEG: string := "Veg"
  const NON_VEG: string := "Non-Veg"

  /** The two declared choices of `meal_type`. */
  predicate IsMealChoice(s: string) {
    s == VEG || s == NON_VEG
  }

  /** The declared `max_length` of `meal_type`. */
  const MEAL_TYPE_MAX_LENGTH: nat := 10

  /** The value columns of an attendance row. */
  datatype AttendanceRow = AttendanceRow(isPresent: bool, mealType: string)

  /**
   * The attendance table, keyed by (student, date): the key type is the
   * declared `unique_together` constraint, so a (student, date) pair can never
   * hold two rows.
   */
  type AttendanceKey = (nat, Date)
  type AttendanceTable = map<AttendanceKey, AttendanceRow>

  /** The column defaults: present, with a vegetarian meal. */
  function DefaultAttendanceRow(): (r: AttendanceRow)
    ensures r.isPresent && IsMealChoice(r.mealType) && r.mealType == VEG
  {
    AttendanceRow(true, VEG)
  }

  /** Every row belongs to an existing profile, is on a real date and has a declared meal choice. */
  predicate ValidAttendance(t: AttendanceTable, ps: seq<StudentProfile>) {
    forall k :: k in t ==>
      (exists i :: 0 <= i < |ps| && ps[i].user == k.0) && ValidDate(k.1) && IsMealChoice(t[k].mealType)
  }

  // ---------------------------------------------------------------------------
  // Bills
  // ---------------------------------------------------------------------------

  /** A bill row, with the rates that were used to compute `amount`. */
  datatype Bill = Bill(
    id: nat, student: nat, month: string, amount: real, isPaid: bool, generatedDate: Date,
    dailyRate: real, nvPlateRate: real,
    roomRent: real, waterCharges: real, electricityCharges: real, establishmentCharges: real)

  /** A bill as the column defaults create it: unpaid, every rate zero, dated `today`. */
  function NewBill(id: nat, student: nat, month: string, amount: real, today: Date): (b: Bill)
    ensures b.id == id && b.student == student && b.month == month && b.amount == amount
    ensures !b.isPaid && b.generatedDate == today
    ensures b.dailyRate == 0.0 && b.nvPlateRate == 0.0
    ensures b.roomRent == 0.0 && b.waterCharges == 0.0 && b.electricityCharges == 0.0 && b.establishmentCharges == 0.0
  {
    Bill(id, student, month, amount, false, today, 0.0, 0.0, 0.0, 0.0, 0.0, 0.0)
  }

  /** The declared `max_length` of a bill's `month`. */
  const BILL_MONTH_MAX_LENGTH: nat := 20

  /**
   * The magnitudes a `DecimalField(max_digits=d, decimal_places=2)` column
   * holds lie below 10^(d-2): 10^8 for `amount`, 10^4 for the two meal rates
   * and 10^6 for the four charges.
   */
  const AMOUNT_LIMIT: real := 100000000.0
  const RATE_LIMIT: real := 10000.0
  const CHARGE_LIMIT: real := 1000000.0

  /** The value fits a decimal column whose magnitudes lie below `limit`. */
  predicate FitsDecimal(x: real, limit: real) {
    -limit < x < limit
  }

  /**
   * The bill table. Bills have no uniqueness constraint on (student, month), so
   * the table is a sequence of rows in id order; `nextId` is the next
   * auto-increment id.
   */
  datatype BillTable = BillTable(rows: seq<Bill>, nextId: nat)

  /** Ids are distinct and below the next auto-increment value. */
  predicate ValidBillTable(t: BillTable) {
    && (forall i :: 0 <= i < |t.rows| ==> t.rows[i].id < t.nextId)
    && (forall i, j :: 0 <= i < j < |t.rows| ==> t.rows[i].id != t.rows[j].id)
  }

  /** The bill belongs to `student` and is for the month string `month`. */
  function ForStudentMonth(student: nat, month: string): Bill -> bool {
    (b: Bill) => b.student == student && b.month == month
  }

  /** The bills of one student for one month string, in table order. */
  function BillsFor(rows: seq<Bill>, student: nat, month: string): (r: seq<Bill>)
    ensures forall i :: 0 <= i < |r| ==> r[i].student == student && r[i].month == month
  {
    FilterMembers(rows, ForStudentMonth(student, month));
    Filter(rows, ForStudentMonth(student, month))
  }

  /** At most one bill per (student, month): kept only by the bill generator's upsert. */
  predicate OneBillPerMonth(rows: seq<Bill>) {
    forall i, j :: 0 <= i < j < |rows| ==> !(rows[i].student == rows[j].student && rows[i].month == rows[j].month)
  }

  /** The schema alone admits two bills for one (student, month). */
  lemma SchemaAllowsDuplicateBills(today: Date)
    ensures exists t :: ValidBillTable(t) && !OneBillPerMonth(t.rows)
  {
    var t := BillTable([NewBill(0, 7, "2025-01", 0.0, today), NewBill(1, 7, "2025-01", 0.0, today)], 2);
    assert ValidBillTable(t);
    assert !OneBillPerMonth(t.rows) by {
      assert t.rows[0].student == t.rows[1].student && t.rows[0].month == t.rows[1].month;
    }
  }
}
