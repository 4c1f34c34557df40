/**
 * The JSON objects the pages receive from the API, as the serializers render
 * the stored rows. Dates arrive as `YYYY-MM-DD` text; the pages turn them back
 * into calendar dates, so they are kept here as dates. Decimal columns arrive
 * as exact numbers; a rate column may be absent from a bill object, which the
 * pages read as zero.
 */
module ApiJson {
  import opened Common
  import opened Models

  /** A user as the user serializer renders it; the password is write-only and never sent. */
  datatype UserJson = UserJson(id: nat, username: string, email: string, isStudent: bool, isStaffMember: bool)

  /**
   * A profile as the profile serializer renders it: all model fields, with the
   * primary-key field `user` rendered as the nested user. The object has no
   * `id` key.
   */
  datatype ProfileJson = ProfileJson(user: UserJson, regNum: string, branch: string, year: int, phone: Option<string>)

  /** An attendance row: `student` is the profile's primary key, which is the owning user's id. */
  datatype AttendanceJson = AttendanceJson(id: nat, student: nat, date: Date, isPresent: bool, mealType: string)

  /** A menu row. */
  datatype MenuJson = MenuJson(id: nat, day: Weekday, breakfast: string, lunch: string, dinner: string)

  /** A bill row, with the student's registration number and user name added by the bill serializer. */
  datatype BillJson = BillJson(
    id: nat, student: nat, studentRegNum: string, studentName: string, month: string, amount: real, isPaid: bool,
    dailyRate: Option<real>, nvPlateRate: Option<real>,
    roomRent: Option<real>, waterCharges: Option<real>, electricityCharges: Option<real>, establishmentCharges: Option<real>)

  function UserJsonOf(u: User): UserJson {
    UserJson(u.id, u.username, u.email, u.isStudent, u.isStaffMember)
  }

  /** The rendered profile of `p`, whose owning user is `u`. */
  function ProfileJsonOf(p: StudentProfile, u: User): ProfileJson {
    ProfileJson(UserJsonOf(u), p.regNum, p.branch, p.year, p.phone)
  }

  /** The rendered attendance row stored under `key`. */
  function AttendanceJsonOf(id: nat, key: AttendanceKey, row: AttendanceRow): AttendanceJson {
    AttendanceJson(id, key.0, key.1, row.isPresent, row.mealType)
  }

  function MenuJsonOf(m: MenuRow): MenuJson {
    MenuJson(m.id, m.day, m.breakfast, m.lunch, m.dinner)
  }

  /** The rendered bill `b`, whose student is `p` owned by `u`. */
  function BillJsonOf(b: Bill, p: StudentProfile, u: User): BillJson {
    BillJson(b.id, b.student, p.regNum, u.username, b.month, b.amount, b.isPaid,
             Some(b.dailyRate), Some(b.nvPlateRate),
             Some(b.roomRent), Some(b.waterCharges), Some(b.electricityCharges), Some(b.establishmentCharges))
  }

  /** `parseFloat(x || 0)` on a decimal column: an absent value is zero. */
  function RateOrZero(x: Option<real>): real {
    if x.Some? then x.value else 0.0
  }
}
