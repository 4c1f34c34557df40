/**
 * The staff attendance editor: one day's roster with an editable entry per
 * registration number, seeded from the day's attendance rows, filtered by a
 * search term, sorted by a clickable column, and saved as one bulk request
 * holding a record for every student on the roster.
 */
module StaffAttendance {
  import opened Common
  import opened Models
  import opened Parsing
  import opened ApiJson
  import opened Sorting
  import opened BulkAttendance

  /** One value of `bulkData`: either key may be missing. */
  datatype Entry = Entry(isPresent: Option<bool>, mealType: Option<string>)

  /** `bulkData`, keyed by registration number. */
  type BulkData = map<string, Entry>

  // ---------------------------------------------------------------------------
  // Seeding the entries from the day's attendance rows
  // ---------------------------------------------------------------------------

  /**
   * Reading `p.id` on a rendered profile. The profile serializer renders the
   * primary key under `user`, as the nested user, and emits no `id` key, so the
   * read yields `undefined`, which is strictly equal to no number.
   */
  function IdProperty(p: ProfileJson): Option<nat> {
    None
  }

  /** `p.user.id`: the owning user's id, which is the profile's primary key. */
  function UserIdProperty(p: ProfileJson): Option<nat> {
    Some(p.user.id)
  }

  /** `profiles.find(p => key(p) === student)`: the first profile whose key is `student`. */
  function FindProfile(ps: seq<ProfileJson>, student: nat, key: ProfileJson -> Option<nat>): (r: Option<ProfileJson>)
    ensures r.Some? ==> key(r.value) == Some(student)
    ensures r.Some? ==> exists i :: 0 <= i < |ps| && ps[i] == r.value && forall j :: 0 <= j < i ==> key(ps[j]) != Some(student)
    ensures r.None? ==> forall i :: 0 <= i < |ps| ==> key(ps[i]) != Some(student)
    decreases |ps|
  {
    if ps == [] then None
    else if key(ps[0]) == Some(student) then Some(ps[0])
    else
      var r := FindProfile(ps[1..], student, key);
      assert r.Some? ==> exists i :: 0 <= i < |ps| && ps[i] == r.value && forall j :: 0 <= j < i ==> key(ps[j]) != Some(student) by {
        if r.Some? {
          var i :| 0 <= i < |ps[1..]| && ps[1..][i] == r.value && forall j :: 0 <= j < i ==> key(ps[1..][j]) != Some(student);
          assert ps[i + 1] == r.value;
          forall j | 0 <= j < i + 1 ensures key(ps[j]) != Some(student) {
            if j > 0 { assert ps[j] == ps[1..][j - 1]; }
          }
        }
      }
      r
  }

  /** The entry a fetched attendance row gives. */
  function EntryOf(rec: AttendanceJson): Entry {
    Entry(Some(rec.isPresent), Some(rec.mealType))
  }

  /** The `forEach` over the fetched rows, joining each row to a profile by `key`. */
  function SeedBy(records: seq<AttendanceJson>, ps: seq<ProfileJson>, key: ProfileJson -> Option<nat>): BulkData
    decreases |records|
  {
    if records == [] then map[]
    else
      var m := SeedBy(records[..|records| - 1], ps, key);
      var rec := records[|records| - 1];
      match FindProfile(ps, rec.student, key)
      case None => m
      case Some(p) => m[p.regNum := EntryOf(rec)]
  }

  /** The seeding as written: the join reads `p.id`. */
  function SeedAsWritten(records: seq<AttendanceJson>, ps: seq<ProfileJson>): BulkData {
    SeedBy(records, ps, IdProperty)
  }

  /** The seeding as intended: the join reads `p.user.id`, as the history view does. */
  function Seed(records: seq<AttendanceJson>, ps: seq<ProfileJson>): BulkData {
    SeedBy(records, ps, UserIdProperty)
  }

  /** As written, no row ever joins a profile, so every editor opens empty. */
  lemma {:induction false} SeedAsWrittenIsEmpty(records: seq<AttendanceJson>, ps: seq<ProfileJson>)
    ensures SeedAsWritten(records, ps) == map[]
    decreases |records|
  {
    if records != [] {
      SeedAsWrittenIsEmpty(records[..|records| - 1], ps);
      var r := FindProfile(ps, records[|records| - 1].student, IdProperty);
      assert r.None?;
    }
  }

  /** One saved row of a rostered student: the as-written editor drops it, the intended one shows it. */
  lemma SeedingDropsSavedRows(u: UserJson, d: Date)
    ensures var p := ProfileJson(u, "21CS001", "CSE", 2, None);
      var rec := AttendanceJson(1, u.id, d, false, NON_VEG);
      && SeedAsWritten([rec], [p]) == map[]
      && Seed([rec], [p]) == map["21CS001" := Entry(Some(false), Some(NON_VEG))]
  {
    var p := ProfileJson(u, "21CS001", "CSE", 2, None);
    var rec := AttendanceJson(1, u.id, d, false, NON_VEG);
    SeedAsWrittenIsEmpty([rec], [p]);
    assert [rec][..0] == [];
    assert SeedBy([], [p], UserIdProperty) == map[];
    assert FindProfile([p], rec.student, UserIdProperty) == Some(p);
    assert SeedBy([rec], [p], UserIdProperty) == map[][p.regNum := EntryOf(rec)];
  }

  /** The row `rec` is seeded under registration number `reg`. */
  predicate SeededTo(ps: seq<ProfileJson>, rec: AttendanceJson, reg: string) {
    var f := FindProfile(ps, rec.student, UserIdProperty);
    f.Some? && f.value.regNum == reg
  }

  /** One more row: its entry is set if it joins a profile, and every other entry stays. */
  lemma SeedSnoc(records: seq<AttendanceJson>, ps: seq<ProfileJson>, reg: string)
    requires records != []
    ensures var m, out, rec := Seed(records[..|records| - 1], ps), Seed(records, ps), records[|records| - 1];
      && (reg in out <==> reg in m || SeededTo(ps, rec, reg))
      && (SeededTo(ps, rec, reg) ==> out[reg] == EntryOf(rec))
      && (!SeededTo(ps, rec, reg) && reg in m ==> out[reg] == m[reg])
  {
  }

  /** An entry exists exactly for the registration numbers some row joins to. */
  lemma {:induction false} SeedKeys(records: seq<AttendanceJson>, ps: seq<ProfileJson>, reg: string)
    ensures reg in Seed(records, ps) <==> exists i :: 0 <= i < |records| && SeededTo(ps, records[i], reg)
    decreases |records|
  {
    if records != [] {
      var init := records[..|records| - 1];
      SeedKeys(init, ps, reg);
      SeedSnoc(records, ps, reg);
      if exists i :: 0 <= i < |records| && SeededTo(ps, records[i], reg) {
        var i :| 0 <= i < |records| && SeededTo(ps, records[i], reg);
        if i < |init| { assert init[i] == records[i]; }
      }
      if exists i :: 0 <= i < |init| && SeededTo(ps, init[i], reg) {
        var i :| 0 <= i < |init| && SeededTo(ps, init[i], reg);
        assert records[i] == init[i];
      }
    }
  }

  /** An entry holds the values of the last row joined to its registration number. */
  lemma {:induction false} SeedValue(records: seq<AttendanceJson>, ps: seq<ProfileJson>, reg: string, i: nat)
    requires i < |records| && SeededTo(ps, records[i], reg)
    requires forall j :: i < j < |records| ==> !SeededTo(ps, records[j], reg)
    ensures reg in Seed(records, ps) && Seed(records, ps)[reg] == EntryOf(records[i])
    decreases |records|
  {
    var init := records[..|records| - 1];
    SeedSnoc(records, ps, reg);
    if i < |init| {
      assert init[i] == records[i];
      forall j | i < j < |init| ensures !SeededTo(ps, init[j], reg) {
        assert init[j] == records[j];
      }
      SeedValue(init, ps, reg, i);
    }
  }

  // ---------------------------------------------------------------------------
  // Saving: one record per roster student
  // ---------------------------------------------------------------------------

  /** `data.meal_type || 'Veg'`. */
  function MealOrVeg(m: Option<string>): (r: string)
    ensures r != ""
    ensures m.Some? && m.value != "" ==> r == m.value
  {
    if m.Some? && m.value != "" then m.value else VEG
  }

  /** An `undefined` presence is omitted from the JSON body. */
  function PresenceField(b: Option<bool>): (f: Field<bool>)
    ensures f != Null
    ensures b.Some? ==> f == Sent(b.value)
    ensures b.None? ==> f == Omitted
  {
    if b.Some? then Sent(b.value) else Omitted
  }

  /** The record sent for one student. */
  function RecordFor(data: BulkData): ProfileJson -> PostedRecord {
    (s: ProfileJson) =>
      if s.regNum in data then PostedRecord(Some(s.regNum), PresenceField(data[s.regNum].isPresent), Sent(MealOrVeg(data[s.regNum].mealType)))
      else PostedRecord(Some(s.regNum), Sent(true), Sent(VEG))
  }

  /**
   * The records of a save: one per roster student in roster order; a student
   * without an entry is sent present with a vegetarian meal, and an entry
   * without a meal sends "Veg".
   */
  function SaveRecords(students: seq<ProfileJson>, data: BulkData): (r: seq<PostedRecord>)
    ensures |r| == |students|
    ensures forall i :: 0 <= i < |r| ==> r[i].regNum == Some(students[i].regNum) && r[i].mealType.Sent? && !r[i].isPresent.Null?
    ensures forall i :: 0 <= i < |r| && students[i].regNum !in data ==>
      r[i].isPresent == Sent(true) && r[i].mealType == Sent(VEG)
    ensures forall i :: 0 <= i < |r| && students[i].regNum in data ==>
      r[i].isPresent == PresenceField(data[students[i].regNum].isPresent) && r[i].mealType.value == MealOrVeg(data[students[i].regNum].mealType)
  {
    Map(students, RecordFor(data))
  }

  /** Every roster student names a stored profile of the same user. */
  predicate RosterOf(students: seq<ProfileJson>, ps: seq<StudentProfile>) {
    forall i :: 0 <= i < |students| ==> exists j :: 0 <= j < |ps| && ps[j].regNum == students[i].regNum && ps[j].user == students[i].user.id
  }

  /** No registration number is on the roster twice. */
  predicate DistinctRegs(students: seq<ProfileJson>) {
    forall i, j :: 0 <= i < j < |students| ==> students[i].regNum != students[j].regNum
  }

  /** Every meal held in the page's entries fits the server's column. */
  predicate MealsFit(data: BulkData) {
    forall reg :: reg in data && data[reg].mealType.Some? ==> |data[reg].mealType.value| <= MEAL_TYPE_MAX_LENGTH
  }

  /**
   * Saving a non-empty roster on a real date, with meals the column holds,
   * leaves every roster student one attendance row for that date, holding
   * the values of that student's record.
   */
  lemma SaveWritesEveryStudent(ps: seq<StudentProfile>, t: AttendanceTable, d: Date, students: seq<ProfileJson>, data: BulkData)
    requires ValidProfiles(ps) && ValidDate(d) && 1 <= d.year <= 9999
    requires students != [] && RosterOf(students, ps) && DistinctRegs(students) && MealsFit(data)
    ensures var rs := SaveRecords(students, data);
      var table := BulkUpdateResult(ps, t, BulkRequest(Some(FormatIsoDate(d)), Some(rs))).1;
      forall i :: 0 <= i < |students| ==> (students[i].user.id, d) in table && table[(students[i].user.id, d)] == RowOf(rs[i])
  {
    var rs := SaveRecords(students, data);
    var date := FormatIsoDate(d);
    ParseIsoDateRoundTrip(d);
    assert Given(Some(date)) by {
      PadDecimalLength(d.year, 4);
    }
    RunTable(ps, d, BulkState(t, 0, []), rs);
    forall i | 0 <= i < |students|
      ensures LastTarget(ps, rs, students[i].user.id) == Some(i)
    {
      assert Storable(rs[i]);
      StudentIsLastTarget(ps, students, rs, i);
    }
  }

  lemma StudentIsLastTarget(ps: seq<StudentProfile>, students: seq<ProfileJson>, rs: seq<PostedRecord>, i: nat)
    requires ValidProfiles(ps) && RosterOf(students, ps) && DistinctRegs(students)
    requires |rs| == |students| && i < |students| && Storable(rs[i])
    requires forall j :: 0 <= j < |rs| ==> rs[j].regNum == Some(students[j].regNum)
    ensures LastTarget(ps, rs, students[i].user.id) == Some(i)
  {
    var sid := students[i].user.id;
    var k :| 0 <= k < |ps| && ps[k].regNum == students[i].regNum && ps[k].user == sid;
    LookupUnique(ps, rs[i]);
    assert Targets(ps, rs[i], sid);
    forall j | i < j < |rs| ensures !Targets(ps, rs[j], sid) {
      LookupUnique(ps, rs[j]);
      assert students[j].regNum != ps[k].regNum;
    }
    var r := LastTarget(ps, rs, sid);
  }

  // ---------------------------------------------------------------------------
  // Editing, filtering and sorting
  // ---------------------------------------------------------------------------

  /** The two edits the table's controls make. */
  datatype Change = SetPresent(present: bool) | SetMeal(meal: string)

  function ApplyChange(e: Entry, ch: Change): Entry {
    match ch
    case SetPresent(b) => e.(isPresent := Some(b))
    case SetMeal(m) => e.(mealType := Some(m))
  }

  /** `handleBulkChange`: sets the one field of the one entry, creating the entry if missing. */
  function BulkChange(data: BulkData, reg: string, ch: Change): (r: BulkData)
    ensures r.Keys == data.Keys + {reg}
    ensures forall k :: k in data && k != reg ==> r[k] == data[k]
    ensures ch.SetPresent? ==>
      r[reg].isPresent == Some(ch.present) && r[reg].mealType == (if reg in data then data[reg].mealType else None)
    ensures ch.SetMeal? ==>
      r[reg].mealType == Some(ch.meal) && r[reg].isPresent == (if reg in data then data[reg].isPresent else None)
  {
    data[reg := ApplyChange(if reg in data then data[reg] else Entry(None, None), ch)]
  }

  /** The search matches the registration number or the user name, ignoring case. */
  function Matches(term: string): ProfileJson -> bool {
    (s: ProfileJson) => Contains(ToLower(s.regNum), ToLower(term)) || Contains(ToLower(s.user.username), ToLower(term))
  }

  datatype SortKey = RegNumKey | NameKey | StatusKey
  datatype Direction = Asc | Desc
  datatype SortConfig = SortConfig(key: SortKey, direction: Direction)

  /** Present counts 1; absent or without an entry counts 0. */
  function StatusRank(data: BulkData, s: ProfileJson): (r: int)
    ensures r == 1 <==> s.regNum in data && data[s.regNum].isPresent == Some(true)
    ensures r == 0 || r == 1
  {
    if s.regNum in data && data[s.regNum].isPresent == Some(true) then 1 else 0
  }

  /** The text a text column sorts on. */
  function KeyText(key: SortKey, s: ProfileJson): string {
    if key == NameKey then s.user.username else s.regNum
  }

  /** The comparator on two texts: -1, 1 or 0, flipped when descending. */
  function TextCompare(dir: Direction, x: string, y: string): int {
    if LexLess(x, y) then (if dir == Asc then -1 else 1)
    else if LexLess(y, x) then (if dir == Asc then 1 else -1)
    else 0
  }

  /** The sort comparator of the current configuration. */
  function Compare(c: SortConfig, data: BulkData): (ProfileJson, ProfileJson) -> int {
    (a: ProfileJson, b: ProfileJson) =>
      if c.key == StatusKey then
        (if c.direction == Asc then StatusRank(data, a) - StatusRank(data, b) else StatusRank(data, b) - StatusRank(data, a))
      else TextCompare(c.direction, KeyText(c.key, a), KeyText(c.key, b))
  }

  /** Descending order negates the ascending comparison, on every column. */
  lemma DescendingNegates(k: SortKey, data: BulkData, a: ProfileJson, b: ProfileJson)
    ensures Compare(SortConfig(k, Desc), data)(a, b) == -Compare(SortConfig(k, Asc), data)(a, b)
  {
    var x, y := KeyText(k, a), KeyText(k, b);
    assert Compare(SortConfig(k, Desc), data)(a, b) ==
      if k == StatusKey then StatusRank(data, b) - StatusRank(data, a) else TextCompare(Desc, x, y);
    assert Compare(SortConfig(k, Asc), data)(a, b) ==
      if k == StatusKey then StatusRank(data, a) - StatusRank(data, b) else TextCompare(Asc, x, y);
  }

  /** Every comparator the page uses is total and transitive, so sorting is well defined. */
  lemma CompareLaws(c: SortConfig, data: BulkData)
    ensures Total(Compare(c, data)) && Transitive(Compare(c, data))
  {
    var cmp := Compare(c, data);
    forall a, b ensures cmp(a, b) <= 0 || cmp(b, a) <= 0 {
      if c.key != StatusKey {
        LexLessAsymmetric(KeyText(c.key, a), KeyText(c.key, b));
        assert cmp(a, b) == TextCompare(c.direction, KeyText(c.key, a), KeyText(c.key, b));
        assert cmp(b, a) == TextCompare(c.direction, KeyText(c.key, b), KeyText(c.key, a));
      }
    }
    forall a, b, x | cmp(a, b) <= 0 && cmp(b, x) <= 0 ensures cmp(a, x) <= 0 {
      if c.key != StatusKey {
        assert cmp(a, b) == TextCompare(c.direction, KeyText(c.key, a), KeyText(c.key, b));
        assert cmp(b, x) == TextCompare(c.direction, KeyText(c.key, b), KeyText(c.key, x));
        assert cmp(a, x) == TextCompare(c.direction, KeyText(c.key, a), KeyText(c.key, x));
        TextCompareTransitive(c.direction, KeyText(c.key, a), KeyText(c.key, b), KeyText(c.key, x));
      }
    }
  }

  lemma TextCompareTransitive(dir: Direction, x: string, y: string, z: string)
    requires TextCompare(dir, x, y) <= 0 && TextCompare(dir, y, z) <= 0
    ensures TextCompare(dir, x, z) <= 0
  {
    LexLessTrichotomy(x, y);
    LexLessTrichotomy(y, z);
    LexLessTrichotomy(x, z);
    LexLessAsymmetric(x, z);
    if dir == Asc {
      if LexLess(z, x) {
        if LexLess(x, y) { LexLessTransitive(z, x, y); LexLessAsymmetric(y, z); }
        else if x == y { }
        else { LexLessAsymmetric(x, y); }
      }
    } else {
      if LexLess(x, z) {
        if LexLess(z, y) { LexLessTransitive(x, z, y); LexLessAsymmetric(x, y); }
        else if z == y { }
        else { LexLessAsymmetric(y, z); }
      }
    }
  }

  /** `filteredStudents`: the matching students in the order of the current column. */
  function FilteredStudents(students: seq<ProfileJson>, term: string, c: SortConfig, data: BulkData): seq<ProfileJson> {
    SortWith(Filter(students, Matches(term)), Compare(c, data))
  }

  /**
   * The shown students are exactly the roster students the term matches, each
   * as often as on the roster, in the order of the current column.
   */
  lemma FilteredStudentsSpec(students: seq<ProfileJson>, term: string, c: SortConfig, data: BulkData)
    ensures multiset(FilteredStudents(students, term, c, data)) == multiset(Filter(students, Matches(term)))
    ensures forall s :: s in FilteredStudents(students, term, c, data) <==> s in students && Matches(term)(s)
    ensures SortedBy(FilteredStudents(students, term, c, data), Compare(c, data))
  {
    var f := Filter(students, Matches(term));
    SortPermutation(f, Compare(c, data));
    FilterMembers(students, Matches(term));
    forall s ensures s in FilteredStudents(students, term, c, data) <==> s in students && Matches(term)(s) {
      SortMembers(f, Compare(c, data), s);
      if s in students && Matches(term)(s) {
        var i :| 0 <= i < |students| && students[i] == s;
      }
      if s in f {
        var i :| 0 <= i < |f| && f[i] == s;
      }
    }
    CompareLaws(c, data);
    SortSorted(f, Compare(c, data));
  }

  /** An empty search shows the whole roster. */
  lemma EmptySearchShowsAll(students: seq<ProfileJson>, c: SortConfig, data: BulkData)
    ensures multiset(FilteredStudents(students, "", c, data)) == multiset(students)
  {
    forall i | 0 <= i < |students| ensures Matches("")(students[i]) {
      EmptyContained(ToLower(students[i].regNum));
    }
    FilterAll(students, Matches(""));
    FilteredStudentsSpec(students, "", c, data);
  }

  /** `handleSort`: the current column while ascending turns descending; anything else sorts the chosen column ascending. */
  function NextSortConfig(c: SortConfig, key: SortKey): (r: SortConfig)
    ensures r.key == key
    ensures r.direction == Desc <==> c.key == key && c.direction == Asc
  {
    if c.key == key && c.direction == Asc then SortConfig(key, Desc) else SortConfig(key, Asc)
  }

  /** Clicking the same column again alternates its direction. */
  lemma SortClicksAlternate(c: SortConfig, key: SortKey)
    ensures NextSortConfig(NextSortConfig(c, key), key).direction != NextSortConfig(c, key).direction
  {
  }

  /** The registration numbers of some students. */
  function RegsOf(ss: seq<ProfileJson>): set<string> {
    set i | 0 <= i < |ss| :: ss[i].regNum
  }

  /**
   * `markAll`: each given registration number is marked, keeping its meal or
   * getting "Veg" if it had no entry; every other entry stays.
   */
  function Marked(data: BulkData, regs: set<string>, present: bool): (r: BulkData)
    ensures r.Keys == data.Keys + regs
    ensures forall k :: k in regs ==>
      r[k].isPresent == Some(present) && r[k].mealType == (if k in data then data[k].mealType else Some(VEG))
    ensures forall k :: k in data && k !in regs ==> r[k] == data[k]
  {
    map k | k in data.Keys + regs :: if k !in regs then data[k] else if k in data then data[k].(isPresent := Some(present)) else Entry(Some(present), Some(VEG))
  }

  lemma RegsOfSnoc(ss: seq<ProfileJson>, i: nat)
    requires i < |ss|
    ensures RegsOf(ss[..i + 1]) == RegsOf(ss[..i]) + {ss[i].regNum}
  {
    assert forall j :: 0 <= j < i ==> ss[..i + 1][j] == ss[..i][j];
    assert ss[..i + 1][i] == ss[i];
  }

  /** Marking one more registration number is one more update of that entry. */
  lemma MarkedAdd(data: BulkData, regs: set<string>, reg: string, present: bool)
    ensures var m := Marked(data, regs, present);
      Marked(data, regs + {reg}, present) ==
        m[reg := (if reg in m then m[reg] else Entry(Some(present), Some(VEG))).(isPresent := Some(present))]
  {
  }

  /** Marking the shown students touches exactly the roster students the search matches. */
  lemma MarkAllTouchesShownOnly(students: seq<ProfileJson>, term: string, c: SortConfig, data: BulkData)
    ensures forall reg :: reg in RegsOf(FilteredStudents(students, term, c, data)) <==>
      exists i :: 0 <= i < |students| && students[i].regNum == reg && Matches(term)(students[i])
  {
    FilteredStudentsSpec(students, term, c, data);
    RegsOfMembers(FilteredStudents(students, term, c, data), students, Matches(term));
  }

  /** The registration numbers of a list holding exactly the matching students. */
  lemma RegsOfMembers(f: seq<ProfileJson>, students: seq<ProfileJson>, p: ProfileJson -> bool)
    requires forall x :: x in f <==> x in students && p(x)
    ensures forall reg :: reg in RegsOf(f) <==> exists i :: 0 <= i < |students| && students[i].regNum == reg && p(students[i])
  {
    forall reg ensures reg in RegsOf(f) <==> exists i :: 0 <= i < |students| && students[i].regNum == reg && p(students[i]) {
      if reg in RegsOf(f) {
        var j :| 0 <= j < |f| && f[j].regNum == reg;
        assert f[j] in f;
        var i :| 0 <= i < |students| && students[i] == f[j];
      }
      if exists i :: 0 <= i < |students| && students[i].regNum == reg && p(students[i]) {
        var i :| 0 <= i < |students| && students[i].regNum == reg && p(students[i]);
        assert students[i] in students;
        var j :| 0 <= j < |f| && f[j] == students[i];
      }
    }
  }

  /** The `forEach` of `markAll` over the shown students, on a copy of the entries. */
  method MarkEach(data: BulkData, shown: seq<ProfileJson>, isPresent: bool) returns (newData: BulkData)
    ensures newData == Marked(data, RegsOf(shown), isPresent)
  {
    newData := data;
    var i := 0;
    while i < |shown|
      invariant 0 <= i <= |shown|
      invariant newData == Marked(data, RegsOf(shown[..i]), isPresent)
    {
      var reg := shown[i].regNum;
      if reg !in newData {
        newData := newData[reg := Entry(Some(isPresent), Some(VEG))];
      }
      newData := newData[reg := newData[reg].(isPresent := Some(isPresent))];
      RegsOfSnoc(shown, i);
      MarkedAdd(data, RegsOf(shown[..i]), reg, isPresent);
      i := i + 1;
    }
    assert shown[..i] == shown;
  }

  // ---------------------------------------------------------------------------
  // The component's state and handlers
  // ---------------------------------------------------------------------------

  class StaffAttendanceView {
    var students: seq<ProfileJson>
    var bulkData: BulkData
    var selectedDate: string
    var searchTerm: string
    var sortConfig: SortConfig

    /** The initial state: no roster, no entries, today's date, no search, registration number ascending. */
    constructor(today: string)
      ensures students == [] && bulkData == map[] && selectedDate == today
      ensures searchTerm == "" && sortConfig == SortConfig(RegNumKey, Asc)
    {
      students := [];
      bulkData := map[];
      selectedDate := today;
      searchTerm := "";
      sortConfig := SortConfig(RegNumKey, Asc);
    }

    /** The students shown, in the order shown. */
    function Shown(): seq<ProfileJson>
      reads this
    {
      FilteredStudents(students, searchTerm, sortConfig, bulkData)
    }

    /**
     * `fetchAdminData`, given the fetched roster and the day's rows: the
     * roster and the seeded entries are stored. The entries are seeded with
     * the corrected join on `p.user.id` (`Seed`); the join as written, on
     * `p.id`, leaves them empty (`SeedAsWrittenIsEmpty`).
     */
    method FetchAdminData(profiles: seq<ProfileJson>, records: seq<AttendanceJson>)
      modifies this
      ensures students == profiles && bulkData == Seed(records, profiles)
      ensures selectedDate == old(selectedDate) && searchTerm == old(searchTerm) && sortConfig == old(sortConfig)
    {
      students := profiles;
      var attMap: BulkData := map[];
      var i := 0;
      while i < |records|
        invariant 0 <= i <= |records|
        invariant attMap == Seed(records[..i], profiles)
      {
        var record := records[i];
        var studentProfile := FindProfile(profiles, record.student, UserIdProperty);
        if studentProfile.Some? {
          attMap := attMap[studentProfile.value.regNum := EntryOf(record)];
        }
        assert records[..i + 1][..i] == records[..i];
        i := i + 1;
      }
      assert records[..i] == records;
      bulkData := attMap;
    }

    /** `saveBulkAttendance`: the request it posts; the state is refreshed by the next fetch. */
    method SaveBulkAttendance() returns (req: BulkRequest)
      ensures req.date == Some(selectedDate) && req.records == Some(SaveRecords(students, bulkData))
    {
      var records := SaveRecords(students, bulkData);
      req := BulkRequest(Some(selectedDate), Some(records));
    }

    method HandleBulkChange(reg: string, ch: Change)
      modifies this
      ensures bulkData == BulkChange(old(bulkData), reg, ch)
      ensures students == old(students) && selectedDate == old(selectedDate)
      ensures searchTerm == old(searchTerm) && sortConfig == old(sortConfig)
    {
      bulkData := BulkChange(bulkData, reg, ch);
    }

    method HandleSort(key: SortKey)
      modifies this
      ensures sortConfig == NextSortConfig(old(sortConfig), key)
      ensures students == old(students) && bulkData == old(bulkData)
      ensures selectedDate == old(selectedDate) && searchTerm == old(searchTerm)
    {
      var direction := Asc;
      if sortConfig.key == key && sortConfig.direction == Asc {
        direction := Desc;
      }
      sortConfig := SortConfig(key, direction);
    }

    /** `markAll`: marks every shown student, leaving the rest of the roster alone. */
    method MarkAll(isPresent: bool)
      modifies this
      ensures bulkData == Marked(old(bulkData), RegsOf(old(Shown())), isPresent)
      ensures students == old(students) && selectedDate == old(selectedDate)
      ensures searchTerm == old(searchTerm) && sortConfig == old(sortConfig)
    {
      var newData := MarkEach(bulkData, Shown(), isPresent);
      bulkData := newData;
    }
  }
}
