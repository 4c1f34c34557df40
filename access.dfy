/**
 * Who may obtain a token and which rows each user's list endpoints return:
 * the role check added to the token serializer and the `get_queryset`
 * overrides of the profile, attendance and bill view sets.
 */
module Access {
  import opened Common
  import opened Models
  import opened Parsing

  // ---------------------------------------------------------------------------
  // Login with a role
  // ---------------------------------------------------------------------------

  datatype LoginError = InvalidCredentials | NotStudentAccount | NotStaffAccount

  /** The error text returned for a failed login. */
  function LoginErrorMessage(e: LoginError): string {
    match e
    case InvalidCredentials => "No active account found with the given credentials"
    case NotStudentAccount => "Access denied. Not a student account."
    case NotStaffAccount => "Access denied. Not a staff account."
  }

  datatype LoginResult = Denied(error: LoginError) | TokensIssued(user: User)

  /**
   * The token serializer's `validate`: `account` is the user the credentials
   * authenticate (`None` when they do not), `role` the optional `role` field
   * of the request.
   */
  function ValidateLogin(account: Option<User>, role: Option<string>): (r: LoginResult)
    ensures account.None? <==> r == Denied(InvalidCredentials)
    ensures r.TokensIssued? <==>
      && account.Some?
      && (role == Some("student") ==> account.value.isStudent)
      && (role == Some("staff") ==> account.value.isStaffMember)
    ensures r.TokensIssued? ==> r.user == account.value
    ensures r == Denied(NotStudentAccount) <==> account.Some? && role == Some("student") && !account.value.isStudent
    ensures r == Denied(NotStaffAccount) <==> account.Some? && role == Some("staff") && !account.value.isStaffMember
  {
    match account
    case None => Denied(InvalidCredentials)
    case Some(u) =>
      if role == Some("student") && !u.isStudent then Denied(NotStudentAccount)
      else if role == Some("staff") && !u.isStaffMember then Denied(NotStaffAccount)
      else TokensIssued(u)
  }

  /** A role other than the two named ones adds no check to the credential check. */
  lemma OtherRolesUnchecked(account: Option<User>, role: Option<string>)
    requires role != Some("student") && role != Some("staff")
    ensures ValidateLogin(account, role) == ValidateLogin(account, None)
    ensures account.Some? ==> ValidateLogin(account, role) == TokensIssued(account.value)
  {
  }

  // ---------------------------------------------------------------------------
  // Row visibility
  // ---------------------------------------------------------------------------

  /** `hasattr(user, 'studentprofile')`. */
  predicate HasProfile(u: User, ps: seq<StudentProfile>) {
    exists i :: 0 <= i < |ps| && ps[i].user == u.id
  }

  function OwnedBy(uid: nat): StudentProfile -> bool {
    (p: StudentProfile) => p.user == uid
  }

  /** The profiles a user may list: staff see all, anyone else only their own. */
  function ProfilesQueryset(u: User, ps: seq<StudentProfile>): (r: seq<StudentProfile>)
    ensures u.isStaffMember ==> r == ps
    ensures !u.isStaffMember ==> forall i :: 0 <= i < |r| ==> r[i].user == u.id && r[i] in ps
    ensures !u.isStaffMember ==> forall i :: 0 <= i < |ps| && ps[i].user == u.id ==> ps[i] in r
    ensures !u.isStaffMember && ValidProfiles(ps) ==> |r| <= 1
  {
    if u.isStaffMember then ps
    else
      var r := Filter(ps, OwnedBy(u.id));
      FilterMembers(ps, OwnedBy(u.id));
      OwnProfileAtMostOne(ps, u.id);
      r
  }

  lemma {:induction false} OwnProfileAtMostOne(ps: seq<StudentProfile>, uid: nat)
    ensures ValidProfiles(ps) ==> |Filter(ps, OwnedBy(uid))| <= 1
  {
    if ps != [] && ValidProfiles(ps) {
      var rest := ps[1..];
      assert ValidProfiles(rest) by {
        forall i, j | 0 <= i < j < |rest|
          ensures rest[i].user != rest[j].user && rest[i].regNum != rest[j].regNum
        {
          assert rest[i] == ps[i + 1] && rest[j] == ps[j + 1];
        }
      }
      OwnProfileAtMostOne(rest, uid);
      if ps[0].user == uid {
        forall i | 0 <= i < |rest| ensures !OwnedBy(uid)(rest[i]) {
          assert rest[i] == ps[i + 1];
        }
        FilterNone(rest, OwnedBy(uid));
      }
    }
  }

  /** The rows of `t` whose key satisfies `keep`. */
  function Restrict(t: AttendanceTable, keep: AttendanceKey -> bool): (r: AttendanceTable)
    ensures forall k :: k in r <==> k in t && keep(k)
    ensures forall k :: k in r ==> r[k] == t[k]
  {
    map k | k in t && keep(k) :: t[k]
  }

  function OfUser(id: int): AttendanceKey -> bool {
    (k: AttendanceKey) => k.0 == id
  }

  function OnDay(d: Date): AttendanceKey -> bool {
    (k: AttendanceKey) => k.1 == d
  }

  /**
   * The attendance rows a user may list before the `date` parameter: staff
   * see every row or, with `student_id`, one user's rows; a student with a
   * profile sees their own; anyone else nothing. `None` where `student_id`
   * does not convert to an integer.
   */
  function UserAttendance(u: User, ps: seq<StudentProfile>, t: AttendanceTable, studentId: Option<string>): (r: Option<AttendanceTable>)
    ensures r.None? <==> u.isStaffMember && Given(studentId) && PyInt(studentId.value).None?
    ensures r.Some? ==> forall k :: k in r.value ==> k in t && r.value[k] == t[k]
    ensures r.Some? && u.isStaffMember && !Given(studentId) ==> r.value == t
    ensures r.Some? && u.isStaffMember && Given(studentId) ==>
      forall k :: k in t ==> (k in r.value <==> k.0 == PyInt(studentId.value).value)
    ensures r.Some? && !u.isStaffMember ==> forall k :: k in r.value ==> k.0 == u.id
    ensures r.Some? && !u.isStaffMember && HasProfile(u, ps) ==> forall k :: k in t && k.0 == u.id ==> k in r.value
    ensures r.Some? && !u.isStaffMember && !HasProfile(u, ps) ==> r.value == map[]
  {
    if u.isStaffMember then
      (if Given(studentId) then
         (match PyInt(studentId.value)
          case None => None
          case Some(id) => Some(Restrict(t, OfUser(id))))
       else Some(t))
    else if HasProfile(u, ps) then Some(Restrict(t, OfUser(u.id)))
    else Some(map[])
  }

  /**
   * The attendance rows a user may list, narrowed by the `student_id` and
   * `date` query parameters; `None` where converting a parameter to the
   * column's type raises.
   */
  function AttendanceQueryset(u: User, ps: seq<StudentProfile>, t: AttendanceTable,
                              studentId: Option<string>, date: Option<string>): (r: Option<AttendanceTable>)
    ensures r.None? <==>
      || (u.isStaffMember && Given(studentId) && PyInt(studentId.value).None?)
      || (Given(date) && ParseIsoDate(date.value).None?)
    ensures r.Some? ==> forall k :: k in r.value ==> k in t && r.value[k] == t[k]
    // staff: every row, or the rows of one user when `student_id` is given
    ensures r.Some? && u.isStaffMember && !Given(studentId) && !Given(date) ==> r.value == t
    ensures r.Some? && u.isStaffMember && Given(studentId) ==>
      forall k :: k in t && (!Given(date) || Some(k.1) == ParseIsoDate(date.value)) ==>
        (k in r.value <==> k.0 == PyInt(studentId.value).value)
    // a student with a profile: exactly their own rows
    ensures r.Some? && !u.isStaffMember ==> forall k :: k in r.value ==> k.0 == u.id
    ensures r.Some? && !u.isStaffMember && HasProfile(u, ps) ==>
      forall k :: k in t && k.0 == u.id && (!Given(date) || Some(k.1) == ParseIsoDate(date.value)) ==> k in r.value
    // anyone else: nothing
    ensures r.Some? && !u.isStaffMember && !HasProfile(u, ps) ==> r.value == map[]
    // a date narrows to that day
    ensures r.Some? && Given(date) ==> forall k :: k in r.value ==> Some(k.1) == ParseIsoDate(date.value)
  {
    var byUser := UserAttendance(u, ps, t, studentId);
    if Given(date) then
      match ParseIsoDate(date.value)
      case None => None
      case Some(d) => if byUser.None? then None else Some(Restrict(byUser.value, OnDay(d)))
    else byUser
  }

  /** Two different non-staff users never see a common attendance row. */
  lemma AttendanceIsPrivate(u1: User, u2: User, ps: seq<StudentProfile>, t: AttendanceTable,
                            sid1: Option<string>, sid2: Option<string>, d1: Option<string>, d2: Option<string>)
    requires !u1.isStaffMember && !u2.isStaffMember && u1.id != u2.id
    requires AttendanceQueryset(u1, ps, t, sid1, d1).Some? && AttendanceQueryset(u2, ps, t, sid2, d2).Some?
    ensures AttendanceQueryset(u1, ps, t, sid1, d1).value.Keys !! AttendanceQueryset(u2, ps, t, sid2, d2).value.Keys
  {
  }

  function BilledTo(uid: nat): Bill -> bool {
    (b: Bill) => b.student == uid
  }

  /** The bills a user may list: staff see all, a student their own, anyone else none. */
  function BillsQueryset(u: User, ps: seq<StudentProfile>, bills: seq<Bill>): (r: seq<Bill>)
    ensures u.isStaffMember ==> r == bills
    ensures !u.isStaffMember ==> forall i :: 0 <= i < |r| ==> r[i].student == u.id && r[i] in bills
    ensures !u.isStaffMember && HasProfile(u, ps) ==>
      forall i :: 0 <= i < |bills| && bills[i].student == u.id ==> bills[i] in r
    ensures !u.isStaffMember && !HasProfile(u, ps) ==> r == []
  {
    if u.isStaffMember then bills
    else if HasProfile(u, ps) then
      FilterMembers(bills, BilledTo(u.id));
      Filter(bills, BilledTo(u.id))
    else []
  }
}
