/**
 * The staff endpoint that records one day's attendance for many students:
 * each posted record names a student by registration number and is upserted
 * into the attendance table under (student, date).
 */
module BulkAttendance {
  import opened Common
  import opened Models
  import opened Parsing

  /** A key of a posted record: left out, JSON `null`, or a value. */
  datatype Field<T> = Omitted | Null | Sent(value: T)

  /**
   * One element of `records`: every key may be missing. A `reg_num` of
   * `null` looks up like a missing one, so it is `None` as well.
   */
  datatype PostedRecord = PostedRecord(regNum: Option<string>, isPresent: Field<bool>, mealType: Field<string>)

  /** The request body: `date` as text and the optional list of records. */
  datatype BulkRequest = BulkRequest(date: Option<string>, records: Option<seq<PostedRecord>>)

  /**
   * Why `update_or_create` raised: two profiles with the number, a date the
   * lookup cannot convert, or a value the columns refuse on the save.
   */
  datatype FailCause = MultipleProfiles | InvalidDate | ValueRejected

  /** One entry of the response's `errors` list. */
  datatype BulkError = NotFound(reg: Option<string>) | Failed(reg: Option<string>, cause: FailCause)

  datatype BulkResponse = MissingDateOrRecords | Processed(updated: nat, errors: seq<BulkError>)

  // ---------------------------------------------------------------------------
  // Looking a student up by registration number
  // ---------------------------------------------------------------------------

  datatype Lookup = NoProfile | OneProfile(profile: StudentProfile) | ManyProfiles

  /** `StudentProfile.objects.get(reg_num=reg)`: no row, the one row, or more than one. */
  function LookupReg(ps: seq<StudentProfile>, reg: Option<string>): (r: Lookup)
    ensures reg.None? ==> r == NoProfile
    ensures r.OneProfile? ==> r.profile in ps && reg == Some(r.profile.regNum)
    ensures r == NoProfile && reg.Some? ==> forall i :: 0 <= i < |ps| ==> ps[i].regNum != reg.value
  {
    match reg
    case None => NoProfile
    case Some(g) =>
      var f := ProfilesWithReg(ps, g);
      FilterMembers(ps, (p: StudentProfile) => p.regNum == g);
      if |f| == 0 then NoProfile else if |f| == 1 then OneProfile(f[0]) else ManyProfiles
  }

  /** The record names an existing registration number. */
  predicate Known(ps: seq<StudentProfile>, r: PostedRecord) {
    r.regNum.Some? && exists i :: 0 <= i < |ps| && ps[i].regNum == r.regNum.value
  }

  /** With unique registration numbers a lookup finds exactly the profile that has it. */
  lemma LookupUnique(ps: seq<StudentProfile>, r: PostedRecord)
    requires ValidProfiles(ps)
    ensures LookupReg(ps, r.regNum) != ManyProfiles
    ensures LookupReg(ps, r.regNum).OneProfile? <==> Known(ps, r)
    ensures forall i :: 0 <= i < |ps| && Some(ps[i].regNum) == r.regNum ==> LookupReg(ps, r.regNum) == OneProfile(ps[i])
  {
    if r.regNum.Some? {
      RegNumIdentifiesOneProfile(ps, r.regNum.value);
    }
  }

  /**
   * The columns accept the record's values: neither is `null` (both columns
   * are NOT NULL) and the meal fits the column's `max_length`.
   */
  predicate Storable(r: PostedRecord) {
    && !r.isPresent.Null? && !r.mealType.Null?
    && (r.mealType.Sent? ==> |r.mealType.value| <= MEAL_TYPE_MAX_LENGTH)
  }

  /** The record is written to the row of student `sid`. */
  predicate Targets(ps: seq<StudentProfile>, r: PostedRecord, sid: nat) {
    var l := LookupReg(ps, r.regNum);
    l.OneProfile? && l.profile.user == sid && Storable(r)
  }

  // ---------------------------------------------------------------------------
  // The upsert loop, as a fold
  // ---------------------------------------------------------------------------

  /** The values a record writes: `is_present` defaults to true and `meal_type` to "Veg". */
  function RowOf(r: PostedRecord): (row: AttendanceRow)
    ensures row.isPresent <==> r.isPresent != Sent(false)
    ensures row.mealType == if r.mealType.Sent? then r.mealType.value else DefaultAttendanceRow().mealType
  {
    AttendanceRow(if r.isPresent.Sent? then r.isPresent.value else true,
                  if r.mealType.Sent? then r.mealType.value else VEG)
  }

  datatype BulkState = BulkState(table: AttendanceTable, updated: nat, errors: seq<BulkError>)

  /** One iteration of the loop over the records. */
  function Step(ps: seq<StudentProfile>, day: Option<Date>, st: BulkState, r: PostedRecord): BulkState {
    match LookupReg(ps, r.regNum)
    case NoProfile => st.(errors := st.errors + [NotFound(r.regNum)])
    case ManyProfiles => st.(errors := st.errors + [Failed(r.regNum, MultipleProfiles)])
    case OneProfile(p) =>
      match day
      case None => st.(errors := st.errors + [Failed(r.regNum, InvalidDate)])
      case Some(d) =>
        if !Storable(r) then st.(errors := st.errors + [Failed(r.regNum, ValueRejected)])
        else BulkState(st.table[(p.user, d) := RowOf(r)], st.updated + 1, st.errors)
  }

  /** The loop over `rs`, started in state `st`. */
  function Run(ps: seq<StudentProfile>, day: Option<Date>, st: BulkState, rs: seq<PostedRecord>): BulkState
    decreases |rs|
  {
    if rs == [] then st else Step(ps, day, Run(ps, day, st, rs[..|rs| - 1]), rs[|rs| - 1])
  }

  /** The whole endpoint: the response and the attendance table afterwards. */
  function BulkUpdateResult(ps: seq<StudentProfile>, t: AttendanceTable, req: BulkRequest): (r: (BulkResponse, AttendanceTable))
    ensures r.0.MissingDateOrRecords? <==> !Given(req.date) || req.records.None? || req.records.value == []
    ensures r.0.MissingDateOrRecords? ==> r.1 == t
  {
    if !Given(req.date) || req.records.None? || req.records.value == [] then (MissingDateOrRecords, t)
    else
      var st := Run(ps, ParseIsoDate(req.date.value), BulkState(t, 0, []), req.records.value);
      (Processed(st.updated, st.errors), st.table)
  }

  /** `bulk_update`: the loop over the posted records. */
  method BulkUpdate(ps: seq<StudentProfile>, t: AttendanceTable, req: BulkRequest)
    returns (resp: BulkResponse, table: AttendanceTable)
    ensures (resp, table) == BulkUpdateResult(ps, t, req)
  {
    if !Given(req.date) || req.records.None? || req.records.value == [] {
      return MissingDateOrRecords, t;
    }
    var date := req.date.value;
    var records := req.records.value;
    var updated := 0;
    var errors: seq<BulkError> := [];
    table := t;
    var i := 0;
    while i < |records|
      invariant 0 <= i <= |records|
      invariant BulkState(table, updated, errors) == Run(ps, ParseIsoDate(date), BulkState(t, 0, []), records[..i])
    {
      var record := records[i];
      var student := LookupReg(ps, record.regNum);
      match student {
        case NoProfile =>
          errors := errors + [NotFound(record.regNum)];
        case ManyProfiles =>
          errors := errors + [Failed(record.regNum, MultipleProfiles)];
        case OneProfile(p) =>
          var day := ParseIsoDate(date);
          match day {
            case None =>
              errors := errors + [Failed(record.regNum, InvalidDate)];
            case Some(d) =>
              if !Storable(record) {
                errors := errors + [Failed(record.regNum, ValueRejected)];
              } else {
                table := table[(p.user, d) := RowOf(record)];
                updated := updated + 1;
              }
          }
      }
      assert records[..i + 1][..i] == records[..i];
      i := i + 1;
    }
    assert records[..i] == records;
    resp := Processed(updated, errors);
  }

  // ---------------------------------------------------------------------------
  // What the loop guarantees
  // ---------------------------------------------------------------------------

  /** Every record is either counted as updated or reported as one error; earlier errors stay. */
  lemma {:induction false} RunAccountsForEveryRecord(ps: seq<StudentProfile>, day: Option<Date>, st: BulkState, rs: seq<PostedRecord>)
    ensures Run(ps, day, st, rs).updated + |Run(ps, day, st, rs).errors| == st.updated + |st.errors| + |rs|
    ensures |Run(ps, day, st, rs).errors| >= |st.errors| && Run(ps, day, st, rs).errors[..|st.errors|] == st.errors
    decreases |rs|
  {
    if rs != [] {
      RunAccountsForEveryRecord(ps, day, st, rs[..|rs| - 1]);
    }
  }

  /** The record is counted: it names an existing profile and its values are storable. */
  predicate Written(ps: seq<StudentProfile>, r: PostedRecord) {
    Known(ps, r) && Storable(r)
  }

  function WrittenIn(ps: seq<StudentProfile>): PostedRecord -> bool {
    (r: PostedRecord) => Written(ps, r)
  }

  function UnwrittenIn(ps: seq<StudentProfile>): PostedRecord -> bool {
    (r: PostedRecord) => !Written(ps, r)
  }

  /** The error an unwritten record gets on a valid date. */
  function ValidDateError(ps: seq<StudentProfile>): PostedRecord -> BulkError {
    (r: PostedRecord) => if Known(ps, r) then Failed(r.regNum, ValueRejected) else NotFound(r.regNum)
  }

  function InvalidDateError(ps: seq<StudentProfile>): PostedRecord -> BulkError {
    (r: PostedRecord) => if Known(ps, r) then Failed(r.regNum, InvalidDate) else NotFound(r.regNum)
  }

  /** On a valid date the updated count is the number of records with a known registration number and storable values. */
  lemma {:induction false} RunUpdatedOnValidDate(ps: seq<StudentProfile>, day: Option<Date>, st: BulkState, rs: seq<PostedRecord>)
    requires ValidProfiles(ps) && day.Some?
    ensures Run(ps, day, st, rs).updated == st.updated + |Filter(rs, WrittenIn(ps))|
    decreases |rs|
  {
    if rs != [] {
      var init, x := rs[..|rs| - 1], rs[|rs| - 1];
      assert rs == init + [x];
      RunUpdatedOnValidDate(ps, day, st, init);
      LookupUnique(ps, x);
      FilterAppend(init, x, WrittenIn(ps));
      var mid := Run(ps, day, st, init);
      assert Run(ps, day, st, rs) == Step(ps, day, mid, x);
      if Written(ps, x) {
        assert LookupReg(ps, x.regNum).OneProfile?;
        assert Step(ps, day, mid, x).updated == mid.updated + 1;
      } else {
        assert Step(ps, day, mid, x).updated == mid.updated;
      }
    }
  }

  /**
   * On a valid date the new errors are one per unwritten record, in the
   * order they were posted: "not found" for an unknown registration number,
   * and a refused value for a known one.
   */
  lemma {:induction false} RunErrorsOnValidDate(ps: seq<StudentProfile>, day: Option<Date>, st: BulkState, rs: seq<PostedRecord>)
    requires ValidProfiles(ps) && day.Some?
    ensures Run(ps, day, st, rs).errors == st.errors + Map(Filter(rs, UnwrittenIn(ps)), ValidDateError(ps))
    decreases |rs|
  {
    if rs != [] {
      var init, x := rs[..|rs| - 1], rs[|rs| - 1];
      assert rs == init + [x];
      RunErrorsOnValidDate(ps, day, st, init);
      StepErrorsOnValidDate(ps, day, Run(ps, day, st, init), x);
      FilterAppend(init, x, UnwrittenIn(ps));
      var u := Filter(init, UnwrittenIn(ps));
      var e := ValidDateError(ps);
      var mid := Run(ps, day, st, init);
      assert Run(ps, day, st, rs) == Step(ps, day, mid, x);
      if Written(ps, x) {
        assert Filter(rs, UnwrittenIn(ps)) == u;
      } else {
        MapAppend(u, x, e);
        calc {
          Run(ps, day, st, rs).errors;
          mid.errors + [e(x)];
          st.errors + Map(u, e) + [e(x)];
          st.errors + Map(u + [x], e);
          st.errors + Map(Filter(rs, UnwrittenIn(ps)), e);
        }
      }
    }
  }

  lemma StepErrorsOnValidDate(ps: seq<StudentProfile>, day: Option<Date>, st: BulkState, x: PostedRecord)
    requires ValidProfiles(ps) && day.Some?
    ensures Step(ps, day, st, x).errors == st.errors + (if Written(ps, x) then [] else [ValidDateError(ps)(x)])
  {
    LookupUnique(ps, x);
  }

  /** On a date that does not parse nothing is written and every record is reported. */
  lemma {:induction false} RunOnInvalidDate(ps: seq<StudentProfile>, st: BulkState, rs: seq<PostedRecord>)
    requires ValidProfiles(ps)
    ensures Run(ps, None, st, rs).table == st.table
    ensures Run(ps, None, st, rs).updated == st.updated
    ensures Run(ps, None, st, rs).errors == st.errors + Map(rs, InvalidDateError(ps))
    decreases |rs|
  {
    if rs != [] {
      var init, x := rs[..|rs| - 1], rs[|rs| - 1];
      RunOnInvalidDate(ps, st, init);
      var mid := Run(ps, None, st, init);
      assert Run(ps, None, st, rs) == Step(ps, None, mid, x);
      StepOnInvalidDate(ps, mid, x);
      assert rs == init + [x];
      MapAppend(init, x, InvalidDateError(ps));
    }
  }

  lemma StepOnInvalidDate(ps: seq<StudentProfile>, st: BulkState, x: PostedRecord)
    requires ValidProfiles(ps)
    ensures Step(ps, None, st, x) == st.(errors := st.errors + [InvalidDateError(ps)(x)])
  {
    LookupUnique(ps, x);
  }

  /** The last record written to student `sid`'s row, if any. */
  function LastTarget(ps: seq<StudentProfile>, rs: seq<PostedRecord>, sid: nat): (r: Option<nat>)
    ensures r.Some? ==> r.value < |rs| && Targets(ps, rs[r.value], sid)
    ensures r.Some? ==> forall j :: r.value < j < |rs| ==> !Targets(ps, rs[j], sid)
    ensures r.None? ==> forall j :: 0 <= j < |rs| ==> !Targets(ps, rs[j], sid)
    decreases |rs|
  {
    if rs == [] then None
    else if Targets(ps, rs[|rs| - 1], sid) then Some(|rs| - 1)
    else LastTarget(ps, rs[..|rs| - 1], sid)
  }

  /**
   * The table after the loop, on a valid date `d`: a row exists for a key iff
   * it existed before or the key is on `d` and some record names its student;
   * such a row holds the values of the last record naming that student, and
   * every other row is unchanged.
   */
  lemma {:induction false} RunTable(ps: seq<StudentProfile>, d: Date, st: BulkState, rs: seq<PostedRecord>)
    ensures forall k :: k in Run(ps, Some(d), st, rs).table <==>
      k in st.table || (k.1 == d && LastTarget(ps, rs, k.0).Some?)
    ensures forall k :: k in Run(ps, Some(d), st, rs).table ==>
      Run(ps, Some(d), st, rs).table[k] ==
        if k.1 == d && LastTarget(ps, rs, k.0).Some? then RowOf(rs[LastTarget(ps, rs, k.0).value]) else st.table[k]
    decreases |rs|
  {
    if rs != [] {
      var init, x := rs[..|rs| - 1], rs[|rs| - 1];
      RunTable(ps, d, st, init);
      var mid := Run(ps, Some(d), st, init);
      var out := Run(ps, Some(d), st, rs).table;
      var l := LookupReg(ps, x.regNum);
      assert out == if l.OneProfile? && Storable(x) then mid.table[(l.profile.user, d) := RowOf(x)] else mid.table;
      forall k
        ensures (k in out <==> k in st.table || (k.1 == d && LastTarget(ps, rs, k.0).Some?))
        ensures k in out ==>
          out[k] == (if k.1 == d && LastTarget(ps, rs, k.0).Some? then RowOf(rs[LastTarget(ps, rs, k.0).value]) else st.table[k])
      {
        LastTargetSnoc(ps, rs, k.0);
      }
    }
  }

  lemma LastTargetSnoc(ps: seq<StudentProfile>, rs: seq<PostedRecord>, sid: nat)
    requires rs != []
    ensures LastTarget(ps, rs, sid) ==
      if Targets(ps, rs[|rs| - 1], sid) then Some(|rs| - 1) else LastTarget(ps, rs[..|rs| - 1], sid)
  {
  }

  /** Posting the same request twice leaves the table as posting it once. */
  lemma BulkUpdateIdempotent(ps: seq<StudentProfile>, t: AttendanceTable, req: BulkRequest)
    ensures BulkUpdateResult(ps, BulkUpdateResult(ps, t, req).1, req).1 == BulkUpdateResult(ps, t, req).1
  {
    if Given(req.date) && req.records.Some? && req.records.value != [] {
      var day, rs := ParseIsoDate(req.date.value), req.records.value;
      match day
      case None =>
        RunNoDateKeepsTable(ps, day, BulkState(t, 0, []), rs);
        RunNoDateKeepsTable(ps, day, BulkState(BulkUpdateResult(ps, t, req).1, 0, []), rs);
      case Some(d) =>
        var t1 := Run(ps, day, BulkState(t, 0, []), rs).table;
        var t2 := Run(ps, day, BulkState(t1, 0, []), rs).table;
        RunTable(ps, d, BulkState(t, 0, []), rs);
        RunTable(ps, d, BulkState(t1, 0, []), rs);
        assert forall k :: k in t2 <==> k in t1;
        assert forall k :: k in t2 ==> t2[k] == t1[k];
    }
  }

  lemma {:induction false} RunNoDateKeepsTable(ps: seq<StudentProfile>, day: Option<Date>, st: BulkState, rs: seq<PostedRecord>)
    requires day.None?
    ensures Run(ps, day, st, rs).table == st.table
    decreases |rs|
  {
    if rs != [] {
      RunNoDateKeepsTable(ps, day, st, rs[..|rs| - 1]);
    }
  }

  /**
   * The table stays well-formed when every posted meal is one of the two
   * choices: the server does not check `meal_type` against them.
   */
  lemma {:induction false} RunKeepsValidAttendance(ps: seq<StudentProfile>, day: Option<Date>, st: BulkState, rs: seq<PostedRecord>)
    requires ValidAttendance(st.table, ps) && (day.Some? ==> ValidDate(day.value))
    requires forall i :: 0 <= i < |rs| && rs[i].mealType.Sent? ==> IsMealChoice(rs[i].mealType.value)
    ensures ValidAttendance(Run(ps, day, st, rs).table, ps)
    decreases |rs|
  {
    if rs != [] {
      var init, x := rs[..|rs| - 1], rs[|rs| - 1];
      RunKeepsValidAttendance(ps, day, st, init);
      var mid := Run(ps, day, st, init);
      match LookupReg(ps, x.regNum)
      case NoProfile =>
      case ManyProfiles =>
      case OneProfile(p) =>
        match day
        case None =>
        case Some(d) =>
          if Storable(x) {
            var i :| 0 <= i < |ps| && ps[i] == p;
            assert ps[i].user == p.user;
          }
    }
  }

  /** An unchecked meal value is stored as posted, so the schema's choices are not enforced here. */
  lemma UncheckedMealIsStored(ps: seq<StudentProfile>, t: AttendanceTable, d: Date, p: StudentProfile)
    requires ValidProfiles(ps) && p in ps
    requires ValidDate(d) && 1 <= d.year <= 9999
    ensures var req := BulkRequest(Some(FormatIsoDate(d)), Some([PostedRecord(Some(p.regNum), Omitted, Sent("Chicken"))]));
      var table := BulkUpdateResult(ps, t, req).1;
      (p.user, d) in table && !IsMealChoice(table[(p.user, d)].mealType)
  {
    var rs := [PostedRecord(Some(p.regNum), Omitted, Sent("Chicken"))];
    ParseIsoDateRoundTrip(d);
    assert FormatIsoDate(d) != "" by {
      assert |FormatIsoDate(d)| >= 4;
    }
    var i :| 0 <= i < |ps| && ps[i] == p;
    LookupUnique(ps, rs[0]);
    assert rs[..0] == [];
  }

  /**
   * A record for a known student on a valid date whose values the columns
   * refuse (a `null`, or a meal longer than ten characters) writes nothing,
   * is not counted, and is reported as an error for its number.
   */
  lemma UnstorableRecordIsRejected(ps: seq<StudentProfile>, t: AttendanceTable, d: Date, p: StudentProfile, r: PostedRecord)
    requires ValidProfiles(ps) && p in ps
    requires ValidDate(d) && 1 <= d.year <= 9999
    requires r.regNum == Some(p.regNum) && !Storable(r)
    ensures BulkUpdateResult(ps, t, BulkRequest(Some(FormatIsoDate(d)), Some([r]))) ==
      (Processed(0, [Failed(r.regNum, ValueRejected)]), t)
  {
    ParseIsoDateRoundTrip(d);
    assert FormatIsoDate(d) != "" by {
      assert |FormatIsoDate(d)| >= 4;
    }
    var i :| 0 <= i < |ps| && ps[i] == p;
    LookupUnique(ps, r);
    assert LookupReg(ps, r.regNum) == OneProfile(p);
    var st := BulkState(t, 0, []);
    assert [r][..0] == [];
    assert Run(ps, Some(d), st, [r]) == Step(ps, Some(d), st, r);
    assert Step(ps, Some(d), st, r) == st.(errors := [Failed(r.regNum, ValueRejected)]);
  }
}
