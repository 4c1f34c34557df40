/**
 * The staff page listing student profiles, with its case-insensitive search
 * over user name, registration number and branch.
 */
module ManageStudents {
  import opened Common
  import opened ApiJson

  /** The `filteredStudents` predicate; an empty branch never matches. */
  function Matches(term: string): ProfileJson -> bool {
    (s: ProfileJson) =>
      Contains(ToLower(s.user.username), ToLower(term)) ||
      Contains(ToLower(s.regNum), ToLower(term)) ||
      (s.branch != "" && Contains(ToLower(s.branch), ToLower(term)))
  }

  function FilteredStudents(students: seq<ProfileJson>, term: string): seq<ProfileJson> {
    Filter(students, Matches(term))
  }

  /** Reference reading of the search: the term occurs at some position of a field. */
  ghost predicate Occurs(text: string, term: string) {
    exists i :: OccursAt(ToLower(text), ToLower(term), i)
  }

  ghost predicate Mentions(s: ProfileJson, term: string) {
    Occurs(s.user.username, term) || Occurs(s.regNum, term) || (s.branch != "" && Occurs(s.branch, term))
  }

  lemma MatchesIff(term: string, s: ProfileJson)
    ensures Matches(term)(s) <==> Mentions(s, term)
  {
    ContainsIff(ToLower(s.user.username), ToLower(term));
    ContainsIff(ToLower(s.regNum), ToLower(term));
    ContainsIff(ToLower(s.branch), ToLower(term));
  }

  /**
   * A student is listed exactly when the term, lower-cased, occurs in the
   * lower-cased user name, registration number or non-empty branch; the
   * listing keeps the fetched order.
   */
  lemma FilteredStudentsSpec(students: seq<ProfileJson>, term: string)
    ensures forall s :: s in FilteredStudents(students, term) <==> s in students && Mentions(s, term)
    ensures IsSubsequence(FilteredStudents(students, term), students)
  {
    var f := FilteredStudents(students, term);
    FilterMembers(students, Matches(term));
    FilterIsSubsequence(students, Matches(term));
    forall s ensures s in f <==> s in students && Mentions(s, term) {
      MatchesIff(term, s);
      if s in students && Matches(term)(s) {
        var i :| 0 <= i < |students| && students[i] == s;
      }
      if s in f {
        var i :| 0 <= i < |f| && f[i] == s;
      }
    }
  }

  /** An empty search lists every student. */
  lemma EmptyTermKeepsAll(students: seq<ProfileJson>)
    ensures FilteredStudents(students, "") == students
  {
    forall i | 0 <= i < |students| ensures Matches("")(students[i]) {
      EmptyContained(ToLower(students[i].user.username));
    }
    FilterAll(students, Matches(""));
  }

  /** Searching for the lower-cased term lists the same students: case does not matter. */
  lemma SearchIgnoresCase(students: seq<ProfileJson>, term: string)
    ensures FilteredStudents(students, ToLower(term)) == FilteredStudents(students, term)
  {
    ToLowerIdempotent(term);
    FilterAgree(students, Matches(ToLower(term)), Matches(term));
  }

  /** "Total Registered Students": the unfiltered count, whatever the search. */
  function TotalRegistered(students: seq<ProfileJson>): nat {
    |students|
  }

  lemma HeaderCountsAll(students: seq<ProfileJson>, term: string)
    ensures |FilteredStudents(students, term)| <= TotalRegistered(students)
    ensures term == "" ==> |FilteredStudents(students, term)| == TotalRegistered(students)
  {
    if term == "" { EmptyTermKeepsAll(students); }
  }

  /** The "No students found" row. */
  predicate ShowsNoStudentsRow(students: seq<ProfileJson>, term: string) {
    |FilteredStudents(students, term)| == 0
  }

  /** The row is shown exactly when no student matches, and with an empty search exactly when there are no students. */
  lemma NoStudentsRowIff(students: seq<ProfileJson>, term: string)
    ensures ShowsNoStudentsRow(students, term) <==> forall i :: 0 <= i < |students| ==> !Matches(term)(students[i])
    ensures ShowsNoStudentsRow(students, "") <==> students == []
  {
    FilterMembers(students, Matches(term));
    if forall i :: 0 <= i < |students| ==> !Matches(term)(students[i]) {
      FilterNone(students, Matches(term));
    }
    EmptyTermKeepsAll(students);
  }
}
