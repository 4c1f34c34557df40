/**
 * The staff endpoint that generates one month's bills: it validates and
 * converts the posted month and rates, counts every student's present and
 * Non-Veg days of that month, and upserts one bill per (student, month).
 */
module BillGeneration {
  import opened Common
  import opened Models
  import opened Parsing

  // ---------------------------------------------------------------------------
  // The request and its conversion
  // ---------------------------------------------------------------------------

  /** A JSON value as a request field may hold it; of an array or object only its emptiness matters. */
  datatype JsonValue = JNull | JBool(b: bool) | JNumber(x: real) | JText(s: string) | JCompound(empty: bool)

  /** Python truthiness of an optional request field (`not x` is false). */
  predicate Truthy(v: Option<JsonValue>) {
    match v
    case None => false
    case Some(JNull) => false
    case Some(JBool(b)) => b
    case Some(JNumber(x)) => x != 0.0
    case Some(JText(s)) => s != ""
    case Some(JCompound(empty)) => !empty
  }

  datatype Conversion = Converted(x: real) | ValueFailure | TypeFailure

  /**
   * `float(v)`: a number is itself, a boolean is 1 or 0, text is parsed, and
   * `None`, a list or a dict raises `TypeError`.
   */
  function ToFloat(v: JsonValue): (r: Conversion)
    ensures v.JNull? || v.JCompound? <==> r.TypeFailure?
    ensures v.JBool? ==> r == Converted(if v.b then 1.0 else 0.0)
    ensures v.JNumber? ==> r == Converted(v.x)
    ensures v.JText? ==> (r.Converted? <==> PyFloat(v.s).Some?)
    ensures v.JText? && r.Converted? ==> PyFloat(v.s) == Some(r.x)
  {
    match v
    case JNull => TypeFailure
    case JBool(b) => Converted(if b then 1.0 else 0.0)
    case JNumber(x) => Converted(x)
    case JText(s) => if PyFloat(s).Some? then Converted(PyFloat(s).value) else ValueFailure
    case JCompound(_) => TypeFailure
  }

  datatype GenRequest = GenRequest(
    month: Option<JsonValue>, dailyRate: Option<JsonValue>, nvPlateRate: Option<JsonValue>,
    roomRent: Option<JsonValue>, waterCharges: Option<JsonValue>,
    electricityCharges: Option<JsonValue>, establishmentCharges: Option<JsonValue>)

  const DEFAULT_ROOM_RENT: real := 150.0
  const DEFAULT_WATER_CHARGES: real := 125.0
  const DEFAULT_ELECTRICITY_CHARGES: real := 150.0
  const DEFAULT_ESTABLISHMENT_CHARGES: real := 275.0

  /** `request.data.get(key, default)`. */
  function OrDefault(v: Option<JsonValue>, default: real): JsonValue {
    if v.Some? then v.value else JNumber(default)
  }

  /** The rates a bill is computed with, as the bill records them. */
  datatype Rates = Rates(daily: real, nv: real, room: real, water: real, electricity: real, establishment: real)

  function FixedTotal(r: Rates): real {
    r.room + r.water + r.electricity + r.establishment
  }

  datatype Params = Params(monthText: string, year: int, month: int, rates: Rates)

  datatype BadRequestReason = MissingFields | InvalidFormat

  /**
   * Conditions the endpoint does not catch; the request ends with a server
   * error. The first two arise before the loop: a month that is not text has
   * no `split`, and `float()` of a rate raises `TypeError`. `YearOutOfRange` is raised by
   * the first attendance query (a `date__year` lookup builds `date(year, 1, 1)`);
   * the other three by an upsert: `get()` finding two bills, a value too wide
   * for its decimal column, or a new bill's month too long for its column.
   */
  datatype ServerFault = MonthNotText | RateTypeError | YearOutOfRange | DuplicateBills | DecimalOverflow | MonthTooLong

  datatype GenResponse =
    | BadRequest(reason: BadRequestReason)
    | ServerError(fault: ServerFault)
    | Generated(students: nat, created: nat, updated: int)

  datatype Parsed = ParsedOk(params: Params) | Refused(response: GenResponse)

  /** The six rate fields, in the order the endpoint converts them, with the charges' defaults. */
  function RateInputs(req: GenRequest): (vs: seq<JsonValue>)
    ensures |vs| == 6
  {
    [OrDefault(req.dailyRate, 0.0), OrDefault(req.nvPlateRate, 0.0),
     OrDefault(req.roomRent, DEFAULT_ROOM_RENT), OrDefault(req.waterCharges, DEFAULT_WATER_CHARGES),
     OrDefault(req.electricityCharges, DEFAULT_ELECTRICITY_CHARGES),
     OrDefault(req.establishmentCharges, DEFAULT_ESTABLISHMENT_CHARGES)]
  }

  datatype Converted6 = AllConverted(xs: seq<real>) | FirstFailed(c: Conversion)

  /** The values of a list of conversions, or the first one that failed. */
  function FirstFailure(cs: seq<Conversion>): (r: Converted6)
    ensures r.AllConverted? <==> forall i :: 0 <= i < |cs| ==> cs[i].Converted?
    ensures r.AllConverted? ==> |r.xs| == |cs| && forall i :: 0 <= i < |cs| ==> cs[i] == Converted(r.xs[i])
    ensures r.FirstFailed? ==> !r.c.Converted? && exists i :: 0 <= i < |cs| && cs[i] == r.c && forall j :: 0 <= j < i ==> cs[j].Converted?
  {
    if cs == [] then AllConverted([])
    else if !cs[0].Converted? then FirstFailed(cs[0])
    else match FirstFailure(cs[1..])
      case FirstFailed(c) =>
        assert forall i :: 1 <= i < |cs| ==> cs[i] == cs[1..][i - 1];
        FirstFailed(c)
      case AllConverted(xs) => AllConverted([cs[0].x] + xs)
  }

  function ConvertRates(req: GenRequest): Converted6 {
    FirstFailure(Map(RateInputs(req), ToFloat))
  }

  /** The checks and conversions before the loop. */
  function ParseRequest(req: GenRequest): (r: Parsed)
    ensures r == Refused(BadRequest(MissingFields)) <==>
      !Truthy(req.month) || !Truthy(req.dailyRate) || !Truthy(req.nvPlateRate)
    ensures r.ParsedOk? ==>
      && req.month == Some(JText(r.params.monthText))
      && ParseYearMonth(r.params.monthText) == Some((r.params.year, r.params.month))
      && ConvertRates(req).AllConverted?
    ensures r.Refused? ==> r.response.BadRequest? || r.response == ServerError(MonthNotText) || r.response == ServerError(RateTypeError)
  {
    if !Truthy(req.month) || !Truthy(req.dailyRate) || !Truthy(req.nvPlateRate) then Refused(BadRequest(MissingFields))
    else if !req.month.value.JText? then Refused(ServerError(MonthNotText))
    else
      var text := req.month.value.s;
      var ym := ParseYearMonth(text);
      if ym.None? then Refused(BadRequest(InvalidFormat))
      else
        var rates := ConvertRates(req);
        if rates.FirstFailed? then
          (if rates.c.TypeFailure? then Refused(ServerError(RateTypeError)) else Refused(BadRequest(InvalidFormat)))
        else
          var xs := rates.xs;
          ParsedOk(Params(text, ym.value.0, ym.value.1, Rates(xs[0], xs[1], xs[2], xs[3], xs[4], xs[5])))
  }

  /** Each rate of an accepted request is `float()` of its field, or of the default when a charge is left out. */
  lemma ParsedRates(req: GenRequest)
    requires ParseRequest(req).ParsedOk?
    ensures var r := ParseRequest(req).params.rates;
      && ToFloat(req.dailyRate.value) == Converted(r.daily)
      && ToFloat(req.nvPlateRate.value) == Converted(r.nv)
      && ToFloat(OrDefault(req.roomRent, DEFAULT_ROOM_RENT)) == Converted(r.room)
      && ToFloat(OrDefault(req.waterCharges, DEFAULT_WATER_CHARGES)) == Converted(r.water)
      && ToFloat(OrDefault(req.electricityCharges, DEFAULT_ELECTRICITY_CHARGES)) == Converted(r.electricity)
      && ToFloat(OrDefault(req.establishmentCharges, DEFAULT_ESTABLISHMENT_CHARGES)) == Converted(r.establishment)
  {
    var cs := Map(RateInputs(req), ToFloat);
    assert cs[0] == ToFloat(req.dailyRate.value);
    assert cs[1] == ToFloat(req.nvPlateRate.value);
  }

  /** A request with all fields present is refused as malformed exactly when the month or a rate does not convert. */
  lemma InvalidFormatCases(req: GenRequest)
    requires Truthy(req.month) && Truthy(req.dailyRate) && Truthy(req.nvPlateRate) && req.month.value.JText?
    ensures ParseRequest(req) == Refused(BadRequest(InvalidFormat)) <==>
      ParseYearMonth(req.month.value.s).None? || ConvertRates(req) == FirstFailed(ValueFailure)
  {
    var rates := ConvertRates(req);
    if ParseYearMonth(req.month.value.s).Some? && rates.FirstFailed? {
      assert rates.c == ValueFailure || rates.c == TypeFailure;
    }
  }

  /** With the four charges left out, the fixed part of every bill is 150 + 125 + 150 + 275. */
  lemma DefaultFixedCharges(req: GenRequest)
    requires req.roomRent.None? && req.waterCharges.None? && req.electricityCharges.None? && req.establishmentCharges.None?
    requires ParseRequest(req).ParsedOk?
    ensures FixedTotal(ParseRequest(req).params.rates) == 700.0
  {
    ParsedRates(req);
  }

  // ---------------------------------------------------------------------------
  // Counting days and pricing a bill
  // ---------------------------------------------------------------------------

  /** The student's attendance rows marked present in month `m` of year `y`. */
  function PresentRows(t: AttendanceTable, sid: nat, y: int, m: int): (keys: set<AttendanceKey>)
    ensures forall k :: k in keys <==> k in t && k.0 == sid && InMonthOf(k.1, y, m) && t[k].isPresent
  {
    set k | k in t && k.0 == sid && InMonthOf(k.1, y, m) && t[k].isPresent
  }

  function PresentDays(t: AttendanceTable, sid: nat, y: int, m: int): nat {
    |PresentRows(t, sid, y, m)|
  }

  /** The present rows whose meal is Non-Veg. */
  function NvRows(t: AttendanceTable, sid: nat, y: int, m: int): (keys: set<AttendanceKey>)
    ensures forall k :: k in keys <==> k in PresentRows(t, sid, y, m) && t[k].mealType == NON_VEG
  {
    set k | k in PresentRows(t, sid, y, m) && t[k].mealType == NON_VEG
  }

  function NvDays(t: AttendanceTable, sid: nat, y: int, m: int): nat {
    |NvRows(t, sid, y, m)|
  }

  /** Non-Veg days are a subset of present days. */
  lemma NvWithinPresent(t: AttendanceTable, sid: nat, y: int, m: int)
    ensures NvDays(t, sid, y, m) <= PresentDays(t, sid, y, m)
  {
    SubsetCardinality(NvRows(t, sid, y, m), PresentRows(t, sid, y, m));
  }

  /** `n * x`, as repeated addition so that the amount stays linear arithmetic. */
  function Times(n: nat, x: real): (r: real)
    ensures x >= 0.0 ==> r >= 0.0
  {
    if n == 0 then 0.0 else Times(n - 1, x) + x
  }

  lemma {:induction false} TimesIsProduct(n: nat, x: real)
    ensures Times(n, x) == n as real * x
  {
    if n > 0 { TimesIsProduct(n - 1, x); }
  }

  lemma {:induction false} TimesMonotone(m: nat, n: nat, x: real)
    requires m <= n && x >= 0.0
    ensures Times(m, x) <= Times(n, x)
    decreases n
  {
    if m < n { TimesMonotone(m, n - 1, x); }
  }

  /** Present days times the daily rate, Non-Veg days times the Non-Veg surcharge, plus the fixed charges. */
  function Amount(present: nat, nv: nat, r: Rates): real {
    Times(present, r.daily) + Times(nv, r.nv) + FixedTotal(r)
  }

  /** A student with 12 present days, 2 of them Non-Veg, at 65 a day and 27 extra, pays 1534. */
  lemma AmountExample()
    ensures Amount(12, 2, Rates(65.0, 27.0, 150.0, 125.0, 150.0, 275.0)) == 1534.0
  {
  }

  /** The amount is the source's formula, and lies between the fixed charges and every present day at both rates. */
  lemma AmountRelations(present: nat, nv: nat, r: Rates)
    requires nv <= present && r.daily >= 0.0 && r.nv >= 0.0
    ensures Amount(present, nv, r) == present as real * r.daily + nv as real * r.nv + FixedTotal(r)
    ensures FixedTotal(r) <= Amount(present, nv, r) <= Times(present, r.daily) + Times(present, r.nv) + FixedTotal(r)
  {
    TimesIsProduct(present, r.daily);
    TimesIsProduct(nv, r.nv);
    TimesMonotone(nv, present, r.nv);
  }

  function AmountFor(t: AttendanceTable, p: Params, sid: nat): real {
    Amount(PresentDays(t, sid, p.year, p.month), NvDays(t, sid, p.year, p.month), p.rates)
  }

  // ---------------------------------------------------------------------------
  // One upsert
  // ---------------------------------------------------------------------------

  function RatesOf(b: Bill): Rates {
    Rates(b.dailyRate, b.nvPlateRate, b.roomRent, b.waterCharges, b.electricityCharges, b.establishmentCharges)
  }

  /** The bill with the upserted fields replaced; the paid flag, id and date stay. */
  function Recharged(b: Bill, amount: real, r: Rates): (c: Bill)
    ensures c.amount == amount && RatesOf(c) == r
    ensures c.id == b.id && c.student == b.student && c.month == b.month
    ensures c.isPaid == b.isPaid && c.generatedDate == b.generatedDate
  {
    b.(amount := amount, dailyRate := r.daily, nvPlateRate := r.nv, roomRent := r.room,
       waterCharges := r.water, electricityCharges := r.electricity, establishmentCharges := r.establishment)
  }

  function RechargeMatching(sid: nat, month: string, amount: real, r: Rates): Bill -> Bill {
    (b: Bill) => if ForStudentMonth(sid, month)(b) then Recharged(b, amount, r) else b
  }

  datatype Upsert = Created(table: BillTable) | Updated(table: BillTable) | Rejected(fault: ServerFault)

  /** The amount and the six rates fit the bill's decimal columns. */
  predicate DecimalsFit(amount: real, r: Rates) {
    && FitsDecimal(amount, AMOUNT_LIMIT)
    && FitsDecimal(r.daily, RATE_LIMIT) && FitsDecimal(r.nv, RATE_LIMIT)
    && FitsDecimal(r.room, CHARGE_LIMIT) && FitsDecimal(r.water, CHARGE_LIMIT)
    && FitsDecimal(r.electricity, CHARGE_LIMIT) && FitsDecimal(r.establishment, CHARGE_LIMIT)
  }

  /**
   * `Bill.objects.update_or_create(student=sid, month=month, defaults=...)`:
   * the lookup, then the save, whose decimals are formatted before the
   * database checks the month's length (only a new row writes the month).
   */
  function UpsertBill(t: BillTable, sid: nat, month: string, amount: real, r: Rates, today: Date): Upsert {
    var found := BillsFor(t.rows, sid, month);
    if |found| >= 2 then Rejected(DuplicateBills)
    else if !DecimalsFit(amount, r) then Rejected(DecimalOverflow)
    else if |found| == 0 && |month| > BILL_MONTH_MAX_LENGTH then Rejected(MonthTooLong)
    else if |found| == 0 then Created(BillTable(t.rows + [Recharged(NewBill(t.nextId, sid, month, amount, today), amount, r)], t.nextId + 1))
    else Updated(BillTable(Map(t.rows, RechargeMatching(sid, month, amount, r)), t.nextId))
  }

  /** The upsert raises exactly on a duplicate, an overflowing decimal or an over-long new month, and in that order. */
  lemma UpsertRejections(t: BillTable, sid: nat, month: string, amount: real, r: Rates, today: Date)
    ensures var found := BillsFor(t.rows, sid, month);
      var u := UpsertBill(t, sid, month, amount, r, today);
      && (u.Rejected? <==> |found| >= 2 || !DecimalsFit(amount, r) || (found == [] && |month| > BILL_MONTH_MAX_LENGTH))
      && (u == Rejected(DuplicateBills) <==> |found| >= 2)
      && (u == Rejected(DecimalOverflow) <==> |found| < 2 && !DecimalsFit(amount, r))
      && (u == Rejected(MonthTooLong) <==> found == [] && DecimalsFit(amount, r) && |month| > BILL_MONTH_MAX_LENGTH)
  {
  }

  /** Only the (sid, month) bills change; every other student's and month's bills stay as they were. */
  lemma {:induction false} UpsertTouchesOneKey(t: BillTable, sid: nat, month: string, amount: real, r: Rates, today: Date, sid2: nat, month2: string)
    requires !UpsertBill(t, sid, month, amount, r, today).Rejected?
    requires sid2 != sid || month2 != month
    ensures BillsFor(UpsertBill(t, sid, month, amount, r, today).table.rows, sid2, month2) == BillsFor(t.rows, sid2, month2)
  {
    var p2 := ForStudentMonth(sid2, month2);
    match UpsertBill(t, sid, month, amount, r, today)
    case Created(t') =>
      FilterAppend(t.rows, Recharged(NewBill(t.nextId, sid, month, amount, today), amount, r), p2);
    case Updated(t') =>
      var f := RechargeMatching(sid, month, amount, r);
      FilterMap(t.rows, f, p2);
      var kept := Filter(t.rows, p2);
      FilterMembers(t.rows, p2);
      assert Map(kept, f) == kept;
  }

  /** After a successful upsert the student has exactly one bill for the month, carrying the new amount and rates. */
  lemma UpsertResult(t: BillTable, sid: nat, month: string, amount: real, r: Rates, today: Date)
    requires !UpsertBill(t, sid, month, amount, r, today).Rejected?
    ensures var found := BillsFor(t.rows, sid, month);
      var after := BillsFor(UpsertBill(t, sid, month, amount, r, today).table.rows, sid, month);
      && (found == [] <==> UpsertBill(t, sid, month, amount, r, today).Created?)
      && (found == [] ==> after == [Recharged(NewBill(t.nextId, sid, month, amount, today), amount, r)])
      && (found != [] ==> |found| == 1 && after == [Recharged(found[0], amount, r)])
  {
    var p := ForStudentMonth(sid, month);
    match UpsertBill(t, sid, month, amount, r, today)
    case Created(t') =>
      FilterAppend(t.rows, Recharged(NewBill(t.nextId, sid, month, amount, today), amount, r), p);
    case Updated(t') =>
      FilterMap(t.rows, RechargeMatching(sid, month, amount, r), p);
      FilterMembers(t.rows, p);
  }

  lemma UpsertKeepsValidTable(t: BillTable, sid: nat, month: string, amount: real, r: Rates, today: Date)
    requires ValidBillTable(t)
    requires !UpsertBill(t, sid, month, amount, r, today).Rejected?
    ensures ValidBillTable(UpsertBill(t, sid, month, amount, r, today).table)
    ensures UpsertBill(t, sid, month, amount, r, today).table.nextId >= t.nextId
  {
  }

  // ---------------------------------------------------------------------------
  // The loop over the students, as a fold
  // ---------------------------------------------------------------------------

  datatype GenState = GenState(bills: BillTable, created: nat, fault: Option<ServerFault>)

  /** The years Python's `date` represents. */
  predicate YearInRange(y: int) {
    1 <= y <= 9999
  }

  /** One iteration: count the student's days, price the month and upsert the bill. */
  function GenStep(att: AttendanceTable, p: Params, today: Date, st: GenState, s: StudentProfile): GenState {
    if st.fault.Some? then st
    else if !YearInRange(p.year) then st.(fault := Some(YearOutOfRange))
    else match UpsertBill(st.bills, s.user, p.monthText, AmountFor(att, p, s.user), p.rates, today)
      case Created(t) => GenState(t, st.created + 1, None)
      case Updated(t) => GenState(t, st.created, None)
      case Rejected(f) => st.(fault := Some(f))
  }

  function GenRun(att: AttendanceTable, p: Params, today: Date, st: GenState, ss: seq<StudentProfile>): GenState
    decreases |ss|
  {
    if ss == [] then st else GenStep(att, p, today, GenRun(att, p, today, st, ss[..|ss| - 1]), ss[|ss| - 1])
  }

  /** The whole endpoint: the response and the bill table afterwards (earlier writes stay on a server error). */
  function GenerateBillsResult(req: GenRequest, ps: seq<StudentProfile>, att: AttendanceTable, bills: BillTable, today: Date): (r: (GenResponse, BillTable))
    ensures (r.0.BadRequest? || r.0 == ServerError(MonthNotText) || r.0 == ServerError(RateTypeError)
             || r.0 == ServerError(YearOutOfRange)) ==> r.1 == bills
    ensures ParseRequest(req).ParsedOk? && ps != [] && !YearInRange(ParseRequest(req).params.year) ==>
            r.0 == ServerError(YearOutOfRange)
  {
    var parsed := ParseRequest(req);
    if parsed.Refused? then (parsed.response, bills)
    else
      GenRunYearOutOfRange(att, parsed.params, today, GenState(bills, 0, None), ps);
      Outcome(|ps|, GenRun(att, parsed.params, today, GenState(bills, 0, None), ps))
  }

  /** The response after the loop: the server error the loop raised, else the counts. */
  function Outcome(students: nat, st: GenState): (r: (GenResponse, BillTable))
    ensures r.1 == st.bills
    ensures r.0.Generated? <==> st.fault.None?
    ensures st.fault.Some? ==> r.0 == ServerError(st.fault.value)
    ensures r.0.Generated? ==> r.0.students == students && r.0.created == st.created && r.0.created + r.0.updated == students
  {
    if st.fault.Some? then (ServerError(st.fault.value), st.bills)
    else (Generated(students, st.created, students - st.created), st.bills)
  }

  lemma GenRunSnoc(att: AttendanceTable, p: Params, today: Date, st: GenState, ss: seq<StudentProfile>, i: nat)
    requires i < |ss|
    ensures GenRun(att, p, today, st, ss[..i + 1]) == GenStep(att, p, today, GenRun(att, p, today, st, ss[..i]), ss[i])
  {
    assert ss[..i + 1][..i] == ss[..i];
  }

  /** Once an iteration has raised, the rest of the loop does nothing. */
  lemma {:induction false} GenRunStaysFailed(att: AttendanceTable, p: Params, today: Date, st: GenState, ss: seq<StudentProfile>, i: nat)
    requires i <= |ss| && GenRun(att, p, today, st, ss[..i]).fault.Some?
    ensures GenRun(att, p, today, st, ss) == GenRun(att, p, today, st, ss[..i])
    decreases |ss| - i
  {
    if i < |ss| {
      assert ss[..i + 1][..i] == ss[..i];
      GenRunStaysFailed(att, p, today, st, ss, i + 1);
    } else {
      assert ss[..i] == ss;
    }
  }

  /**
   * A year outside 1..9999 makes the first student's query raise before
   * anything is written; a year inside it never raises that error, and the
   * loop never raises the errors of the checks before it.
   */
  lemma {:induction false} GenRunYearOutOfRange(att: AttendanceTable, p: Params, today: Date, st: GenState, ss: seq<StudentProfile>)
    requires st.fault.None?
    ensures GenRun(att, p, today, st, ss).fault != Some(MonthNotText) && GenRun(att, p, today, st, ss).fault != Some(RateTypeError)
    ensures YearInRange(p.year) ==> GenRun(att, p, today, st, ss).fault != Some(YearOutOfRange)
    ensures !YearInRange(p.year) ==>
      && GenRun(att, p, today, st, ss).bills == st.bills
      && GenRun(att, p, today, st, ss).created == st.created
      && (ss != [] ==> GenRun(att, p, today, st, ss).fault == Some(YearOutOfRange))
    decreases |ss|
  {
    if ss != [] {
      var init := ss[..|ss| - 1];
      GenRunYearOutOfRange(att, p, today, st, init);
      var mid := GenRun(att, p, today, st, init);
      assert GenRun(att, p, today, st, ss) == GenStep(att, p, today, mid, ss[|ss| - 1]);
      if !YearInRange(p.year) && init == [] {
        assert mid == st;
      }
    }
  }

  /** `generate_bills`. */
  method GenerateBills(req: GenRequest, ps: seq<StudentProfile>, att: AttendanceTable, bills: BillTable, today: Date)
    returns (resp: GenResponse, table: BillTable)
    ensures (resp, table) == GenerateBillsResult(req, ps, att, bills, today)
  {
    var parsed := ParseRequest(req);
    if parsed.Refused? {
      return parsed.response, bills;
    }
    var st := BillEveryStudent(att, parsed.params, today, bills, ps);
    resp, table := Outcome(|ps|, st).0, st.bills;
  }

  /** The loop of `generate_bills`: price and upsert each student's bill, stopping at the first error raised. */
  method BillEveryStudent(att: AttendanceTable, p: Params, today: Date, bills: BillTable, ps: seq<StudentProfile>)
    returns (st: GenState)
    ensures st == GenRun(att, p, today, GenState(bills, 0, None), ps)
  {
    var created := 0;
    var table := bills;
    var i := 0;
    while i < |ps|
      invariant 0 <= i <= |ps|
      invariant GenRun(att, p, today, GenState(bills, 0, None), ps[..i]) == GenState(table, created, None)
    {
      var student := ps[i];
      GenRunSnoc(att, p, today, GenState(bills, 0, None), ps, i);
      if !YearInRange(p.year) {
        GenRunStaysFailed(att, p, today, GenState(bills, 0, None), ps, i + 1);
        return GenState(table, created, Some(YearOutOfRange));
      }
      var presentDays := PresentDays(att, student.user, p.year, p.month);
      var nvDays := NvDays(att, student.user, p.year, p.month);
      var total := Amount(presentDays, nvDays, p.rates);
      match UpsertBill(table, student.user, p.monthText, total, p.rates, today) {
        case Created(t) =>
          table := t;
          created := created + 1;
        case Updated(t) =>
          table := t;
        case Rejected(f) =>
          GenRunStaysFailed(att, p, today, GenState(bills, 0, None), ps, i + 1);
          return GenState(table, created, Some(f));
      }
      i := i + 1;
    }
    assert ps[..i] == ps;
    return GenState(table, created, None);
  }

  // ---------------------------------------------------------------------------
  // What generation guarantees
  // ---------------------------------------------------------------------------

  /** Each listed student has at most one bill for the month. */
  predicate AtMostOneBillEach(rows: seq<Bill>, ss: seq<StudentProfile>, month: string) {
    forall i :: 0 <= i < |ss| ==> |BillsFor(rows, ss[i].user, month)| <= 1
  }

  predicate DistinctUsers(ss: seq<StudentProfile>) {
    forall i, j :: 0 <= i < j < |ss| ==> ss[i].user != ss[j].user
  }

  function Unbilled(rows: seq<Bill>, month: string): StudentProfile -> bool {
    (s: StudentProfile) => BillsFor(rows, s.user, month) == []
  }

  predicate Listed(ss: seq<StudentProfile>, sid: nat) {
    exists i :: 0 <= i < |ss| && ss[i].user == sid
  }

  /** The bill a student ends up with: the old one re-priced, or a new unpaid one of today. */
  predicate BilledAfter(before: seq<Bill>, after: seq<Bill>, firstNewId: nat, sid: nat, month: string, amount: real, r: Rates, today: Date) {
    && |BillsFor(after, sid, month)| == 1
    && var b := BillsFor(after, sid, month)[0];
    && b.student == sid && b.month == month && b.amount == amount && RatesOf(b) == r
    && (BillsFor(before, sid, month) != [] ==>
          b.id == BillsFor(before, sid, month)[0].id && b.isPaid == BillsFor(before, sid, month)[0].isPaid
          && b.generatedDate == BillsFor(before, sid, month)[0].generatedDate)
    && (BillsFor(before, sid, month) == [] ==> !b.isPaid && b.generatedDate == today && b.id >= firstNewId)
  }

  /**
   * The iteration for `s` raises, judged against the bills as they were
   * before the loop: a year outside 1..9999, two bills already there, a value
   * too wide for its column, or a new bill whose month is too long.
   */
  predicate StepFails(att: AttendanceTable, p: Params, rows: seq<Bill>, s: StudentProfile) {
    || !YearInRange(p.year)
    || |BillsFor(rows, s.user, p.monthText)| >= 2
    || !DecimalsFit(AmountFor(att, p, s.user), p.rates)
    || (BillsFor(rows, s.user, p.monthText) == [] && |p.monthText| > BILL_MONTH_MAX_LENGTH)
  }

  /** No listed student's iteration raises. */
  predicate Billable(att: AttendanceTable, p: Params, rows: seq<Bill>, ss: seq<StudentProfile>) {
    forall i :: 0 <= i < |ss| ==> !StepFails(att, p, rows, ss[i])
  }

  /** The effect of one iteration that does not raise. */
  lemma GenStepEffect(att: AttendanceTable, p: Params, today: Date, st: GenState, x: StudentProfile)
    requires st.fault.None? && ValidBillTable(st.bills)
    requires !StepFails(att, p, st.bills.rows, x)
    ensures var out := GenStep(att, p, today, st, x);
      && out.fault.None? && ValidBillTable(out.bills) && out.bills.nextId >= st.bills.nextId
      && out.created == st.created + (if BillsFor(st.bills.rows, x.user, p.monthText) == [] then 1 else 0)
      && BilledAfter(st.bills.rows, out.bills.rows, st.bills.nextId, x.user, p.monthText, AmountFor(att, p, x.user), p.rates, today)
    ensures forall sid: nat, m: string :: sid != x.user || m != p.monthText ==>
      BillsFor(GenStep(att, p, today, st, x).bills.rows, sid, m) == BillsFor(st.bills.rows, sid, m)
  {
    var amount := AmountFor(att, p, x.user);
    UpsertResult(st.bills, x.user, p.monthText, amount, p.rates, today);
    UpsertKeepsValidTable(st.bills, x.user, p.monthText, amount, p.rates, today);
    forall sid: nat, m: string | sid != x.user || m != p.monthText
      ensures BillsFor(GenStep(att, p, today, st, x).bills.rows, sid, m) == BillsFor(st.bills.rows, sid, m)
    {
      UpsertTouchesOneKey(st.bills, x.user, p.monthText, amount, p.rates, today, sid, m);
    }
  }

  /** An iteration that raises writes nothing. */
  lemma GenStepFails(att: AttendanceTable, p: Params, today: Date, st: GenState, x: StudentProfile)
    requires st.fault.None? && StepFails(att, p, st.bills.rows, x)
    ensures GenStep(att, p, today, st, x).fault.Some?
    ensures GenStep(att, p, today, st, x).bills == st.bills && GenStep(att, p, today, st, x).created == st.created
  {
  }

  lemma NotListedInPrefix(ss: seq<StudentProfile>, sid: nat)
    requires ss != [] && !Listed(ss, sid)
    ensures !Listed(ss[..|ss| - 1], sid) && ss[|ss| - 1].user != sid
  {
    var init := ss[..|ss| - 1];
    forall j | 0 <= j < |init| ensures init[j].user != sid {
      assert init[j] == ss[j];
    }
  }

  lemma LastNotInPrefix(ss: seq<StudentProfile>)
    requires ss != [] && DistinctUsers(ss)
    ensures !Listed(ss[..|ss| - 1], ss[|ss| - 1].user) && DistinctUsers(ss[..|ss| - 1])
  {
    var init := ss[..|ss| - 1];
    forall j | 0 <= j < |init| ensures init[j].user != ss[|ss| - 1].user {
      assert init[j] == ss[j];
    }
  }

  /** No iteration raising carries over to every student but the last, and holds for the last. */
  lemma BillablePrefix(att: AttendanceTable, p: Params, rows: seq<Bill>, ss: seq<StudentProfile>)
    requires ss != [] && Billable(att, p, rows, ss)
    ensures Billable(att, p, rows, ss[..|ss| - 1]) && !StepFails(att, p, rows, ss[|ss| - 1])
  {
    var init := ss[..|ss| - 1];
    forall j | 0 <= j < |init| ensures !StepFails(att, p, rows, init[j]) {
      assert init[j] == ss[j];
    }
  }

  /**
   * When no listed student's iteration raises, the loop does not fail, keeps
   * the table well-formed, and leaves every bill of an unlisted student or of
   * another month as it was.
   */
  lemma {:induction false} GenRunSucceeds(att: AttendanceTable, p: Params, today: Date, st: GenState, ss: seq<StudentProfile>)
    requires st.fault.None? && ValidBillTable(st.bills)
    requires DistinctUsers(ss) && Billable(att, p, st.bills.rows, ss)
    ensures var out := GenRun(att, p, today, st, ss);
      out.fault.None? && ValidBillTable(out.bills) && out.bills.nextId >= st.bills.nextId
    ensures forall sid: nat, m: string :: (m != p.monthText || !Listed(ss, sid)) ==>
      BillsFor(GenRun(att, p, today, st, ss).bills.rows, sid, m) == BillsFor(st.bills.rows, sid, m)
    decreases |ss|
  {
    if ss != [] {
      var init, x := ss[..|ss| - 1], ss[|ss| - 1];
      LastNotInPrefix(ss);
      BillablePrefix(att, p, st.bills.rows, ss);
      GenRunSucceeds(att, p, today, st, init);
      var mid := GenRun(att, p, today, st, init);
      GenStepEffect(att, p, today, mid, x);
      forall sid: nat, m: string | m != p.monthText || !Listed(ss, sid)
        ensures BillsFor(GenRun(att, p, today, st, ss).bills.rows, sid, m) == BillsFor(st.bills.rows, sid, m)
      {
        if m == p.monthText {
          NotListedInPrefix(ss, sid);
        }
      }
    }
  }

  /** The created count is the number of listed students who had no bill for the month. */
  lemma {:induction false} GenRunCreatedCount(att: AttendanceTable, p: Params, today: Date, st: GenState, ss: seq<StudentProfile>)
    requires st.fault.None? && ValidBillTable(st.bills)
    requires DistinctUsers(ss) && Billable(att, p, st.bills.rows, ss)
    ensures GenRun(att, p, today, st, ss).created == st.created + |Filter(ss, Unbilled(st.bills.rows, p.monthText))|
    decreases |ss|
  {
    if ss != [] {
      var init, x := ss[..|ss| - 1], ss[|ss| - 1];
      assert ss == init + [x];
      LastNotInPrefix(ss);
      BillablePrefix(att, p, st.bills.rows, ss);
      GenRunCreatedCount(att, p, today, st, init);
      GenRunSucceeds(att, p, today, st, init);
      var mid := GenRun(att, p, today, st, init);
      GenStepEffect(att, p, today, mid, x);
      FilterAppend(init, x, Unbilled(st.bills.rows, p.monthText));
    }
  }

  /**
   * Every listed student ends with exactly one bill for the month, priced from
   * their own attendance with the posted rates; an existing bill keeps its id,
   * paid flag and date, and a new one is unpaid and dated today.
   */
  lemma {:induction false} GenRunBillsEachStudent(att: AttendanceTable, p: Params, today: Date, st: GenState, ss: seq<StudentProfile>, i: nat)
    requires st.fault.None? && ValidBillTable(st.bills)
    requires DistinctUsers(ss) && Billable(att, p, st.bills.rows, ss)
    requires i < |ss|
    ensures BilledAfter(st.bills.rows, GenRun(att, p, today, st, ss).bills.rows, st.bills.nextId,
                        ss[i].user, p.monthText, AmountFor(att, p, ss[i].user), p.rates, today)
    decreases |ss|
  {
    var init, x := ss[..|ss| - 1], ss[|ss| - 1];
    LastNotInPrefix(ss);
    BillablePrefix(att, p, st.bills.rows, ss);
    GenRunSucceeds(att, p, today, st, init);
    var mid := GenRun(att, p, today, st, init);
    var out := GenStep(att, p, today, mid, x);
    assert GenRun(att, p, today, st, ss) == out;
    assert BillsFor(mid.bills.rows, x.user, p.monthText) == BillsFor(st.bills.rows, x.user, p.monthText);
    GenStepEffect(att, p, today, mid, x);
    if i == |ss| - 1 {
      BilledAfterRebase(st.bills.rows, mid.bills.rows, out.bills.rows, st.bills.nextId, mid.bills.nextId,
                        x.user, p.monthText, AmountFor(att, p, x.user), p.rates, today);
    } else {
      assert init[i] == ss[i];
      GenRunBillsEachStudent(att, p, today, st, init, i);
      assert ss[i].user != x.user;
      BilledAfterKept(st.bills.rows, mid.bills.rows, out.bills.rows, st.bills.nextId,
                      ss[i].user, p.monthText, AmountFor(att, p, ss[i].user), p.rates, today);
    }
  }

  /** A bill state that later steps leave alone stays as it was. */
  lemma BilledAfterKept(before: seq<Bill>, mid: seq<Bill>, after: seq<Bill>, firstNewId: nat, sid: nat, month: string, amount: real, r: Rates, today: Date)
    requires BilledAfter(before, mid, firstNewId, sid, month, amount, r, today)
    requires BillsFor(after, sid, month) == BillsFor(mid, sid, month)
    ensures BilledAfter(before, after, firstNewId, sid, month, amount, r, today)
  {
  }

  /** A step measured from an intermediate table is also measured from the start when the student's bills were not touched in between. */
  lemma BilledAfterRebase(before: seq<Bill>, mid: seq<Bill>, after: seq<Bill>, firstNewId: nat, midNewId: nat, sid: nat, month: string, amount: real, r: Rates, today: Date)
    requires BilledAfter(mid, after, midNewId, sid, month, amount, r, today)
    requires BillsFor(mid, sid, month) == BillsFor(before, sid, month) && midNewId >= firstNewId
    ensures BilledAfter(before, after, firstNewId, sid, month, amount, r, today)
  {
  }

  /** A listed student whose iteration raises makes the generation fail. */
  lemma {:induction false} GenRunFailsAt(att: AttendanceTable, p: Params, today: Date, st: GenState, ss: seq<StudentProfile>, i: nat)
    requires st.fault.None? && DistinctUsers(ss)
    requires i < |ss| && StepFails(att, p, st.bills.rows, ss[i])
    ensures GenRun(att, p, today, st, ss).fault.Some?
    decreases |ss|
  {
    var init, x := ss[..|ss| - 1], ss[|ss| - 1];
    LastNotInPrefix(ss);
    if i < |init| {
      assert init[i] == ss[i];
      GenRunFailsAt(att, p, today, st, init, i);
    } else {
      var mid := GenRun(att, p, today, st, init);
      if mid.fault.None? {
        KeepsUnlisted(att, p, today, st, init, x.user);
        GenStepFails(att, p, today, mid, x);
      }
    }
  }

  /** While the loop has not failed, a student it has not reached keeps their bills. */
  lemma {:induction false} KeepsUnlisted(att: AttendanceTable, p: Params, today: Date, st: GenState, ss: seq<StudentProfile>, sid: nat)
    requires st.fault.None? && !Listed(ss, sid) && GenRun(att, p, today, st, ss).fault.None?
    ensures BillsFor(GenRun(att, p, today, st, ss).bills.rows, sid, p.monthText) == BillsFor(st.bills.rows, sid, p.monthText)
    decreases |ss|
  {
    if ss != [] {
      var init, x := ss[..|ss| - 1], ss[|ss| - 1];
      var mid := GenRun(att, p, today, st, init);
      assert mid.fault.None?;
      NotListedInPrefix(ss, sid);
      KeepsUnlisted(att, p, today, st, init, sid);
      UpsertTouchesOneKey(mid.bills, x.user, p.monthText, AmountFor(att, p, x.user), p.rates, today, sid, p.monthText);
    }
  }

  /**
   * No iteration raises exactly when the year is a `date` year and the rates
   * fit their columns (both only matter once there is a student), no student
   * has two bills for the month, every amount fits its column, and, for a
   * month text longer than its column, every student already has a bill.
   */
  lemma BillableIff(att: AttendanceTable, p: Params, rows: seq<Bill>, ss: seq<StudentProfile>)
    ensures Billable(att, p, rows, ss) <==>
      && (ss != [] ==> YearInRange(p.year) && DecimalsFit(0.0, p.rates))
      && AtMostOneBillEach(rows, ss, p.monthText)
      && (forall i :: 0 <= i < |ss| ==> FitsDecimal(AmountFor(att, p, ss[i].user), AMOUNT_LIMIT))
      && (|p.monthText| > BILL_MONTH_MAX_LENGTH ==> forall i :: 0 <= i < |ss| ==> BillsFor(rows, ss[i].user, p.monthText) != [])
  {
    if Billable(att, p, rows, ss) && ss != [] {
      assert !StepFails(att, p, rows, ss[0]);
    }
  }

  /** The loop fails exactly when some iteration raises; otherwise it counts the new bills and leaves everyone one bill. */
  lemma GenRunOutcome(att: AttendanceTable, p: Params, today: Date, bills: BillTable, ps: seq<StudentProfile>)
    requires DistinctUsers(ps) && ValidBillTable(bills)
    ensures var out := GenRun(att, p, today, GenState(bills, 0, None), ps);
      && (out.fault.None? <==> Billable(att, p, bills.rows, ps))
      && (out.fault.None? ==> out.created == |Filter(ps, Unbilled(bills.rows, p.monthText))| <= |ps|)
      && (out.fault.None? ==> forall i :: 0 <= i < |ps| ==> |BillsFor(out.bills.rows, ps[i].user, p.monthText)| == 1)
  {
    var st := GenState(bills, 0, None);
    if Billable(att, p, bills.rows, ps) {
      GenRunSucceeds(att, p, today, st, ps);
      GenRunCreatedCount(att, p, today, st, ps);
      var out := GenRun(att, p, today, st, ps);
      forall i | 0 <= i < |ps| ensures |BillsFor(out.bills.rows, ps[i].user, p.monthText)| == 1 {
        GenRunBillsEachStudent(att, p, today, st, ps, i);
      }
    } else {
      var i :| 0 <= i < |ps| && StepFails(att, p, bills.rows, ps[i]);
      GenRunFailsAt(att, p, today, st, ps, i);
    }
  }

  /**
   * The endpoint succeeds exactly when no student's iteration raises (see
   * `BillableIff`); it then reports every student, created plus updated equal
   * to their number, created equal to the number who had no bill, and leaves
   * each student one bill for the month.
   */
  lemma GenerateBillsOutcome(req: GenRequest, ps: seq<StudentProfile>, att: AttendanceTable, bills: BillTable, today: Date)
    requires ValidProfiles(ps) && ValidBillTable(bills) && ParseRequest(req).ParsedOk?
    ensures var p := ParseRequest(req).params;
      GenerateBillsResult(req, ps, att, bills, today).0.Generated? <==> Billable(att, p, bills.rows, ps)
    ensures !GenerateBillsResult(req, ps, att, bills, today).0.Generated? ==> GenerateBillsResult(req, ps, att, bills, today).0.ServerError?
    ensures var p := ParseRequest(req).params;
      var (resp, after) := GenerateBillsResult(req, ps, att, bills, today);
      resp.Generated? ==>
        && resp.students == |ps|
        && resp.created == |Filter(ps, Unbilled(bills.rows, p.monthText))|
        && resp.created + resp.updated == |ps| && resp.updated >= 0
        && forall i :: 0 <= i < |ps| ==> |BillsFor(after.rows, ps[i].user, p.monthText)| == 1
  {
    var p := ParseRequest(req).params;
    assert DistinctUsers(ps);
    GenRunOutcome(att, p, today, bills, ps);
    assert GenerateBillsResult(req, ps, att, bills, today) == Outcome(|ps|, GenRun(att, p, today, GenState(bills, 0, None), ps));
  }
}
