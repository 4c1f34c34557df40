/**
 * The weekly menu as both menu pages show it: rows sorted Monday to Sunday by
 * a fixed day order, and the student page's fallbacks for empty meals and for
 * an empty menu.
 */
module WeekMenu {
  import opened Common
  import opened Models
  import opened ApiJson
  import opened Sorting

  /** The `dayOrder` table: Monday is 1 and Sunday 7. */
  function DayOrder(d: Weekday): (n: int)
    ensures 1 <= n <= 7
  {
    match d
    case Monday => 1
    case Tuesday => 2
    case Wednesday => 3
    case Thursday => 4
    case Friday => 5
    case Saturday => 6
    case Sunday => 7
  }

  /** Different weekdays have different places in the order. */
  lemma DayOrderInjective(a: Weekday, b: Weekday)
    ensures DayOrder(a) == DayOrder(b) <==> a == b
  {
  }

  /** `(a, b) => dayOrder[a.day] - dayOrder[b.day]`. */
  function ByDay(): (MenuJson, MenuJson) -> int {
    (a: MenuJson, b: MenuJson) => DayOrder(a.day) - DayOrder(b.day)
  }

  /** `response.data.sort(...)` in `fetchMenu`. */
  function SortedMenu(ms: seq<MenuJson>): seq<MenuJson> {
    SortWith(ms, ByDay())
  }

  /** The sorted menu has every fetched row exactly once, in Monday-to-Sunday order. */
  lemma SortedMenuSpec(ms: seq<MenuJson>)
    ensures multiset(SortedMenu(ms)) == multiset(ms) && |SortedMenu(ms)| == |ms|
    ensures forall i, j :: 0 <= i < j < |SortedMenu(ms)| ==> DayOrder(SortedMenu(ms)[i].day) <= DayOrder(SortedMenu(ms)[j].day)
  {
    SortByKey(ms, ByDay(), (m: MenuJson) => DayOrder(m.day));
  }

  /** With one row per weekday, as the table guarantees, the days strictly increase. */
  lemma SortedMenuStrict(ms: seq<MenuJson>)
    requires forall a, b :: 0 <= a < b < |ms| ==> ms[a].day != ms[b].day
    ensures forall i, j :: 0 <= i < j < |SortedMenu(ms)| ==> DayOrder(SortedMenu(ms)[i].day) < DayOrder(SortedMenu(ms)[j].day)
  {
    var s := SortedMenu(ms);
    SortedMenuSpec(ms);
    forall i, j | 0 <= i < j < |s| ensures DayOrder(s[i].day) < DayOrder(s[j].day) {
      if DayOrder(s[i].day) == DayOrder(s[j].day) {
        DayOrderInjective(s[i].day, s[j].day);
        SameDayIsSameRow(ms, s, i, j);
      }
    }
  }

  /** Two positions of a permutation of a table with distinct days cannot hold the same day. */
  lemma SameDayIsSameRow(ms: seq<MenuJson>, s: seq<MenuJson>, i: int, j: int)
    requires forall a, b :: 0 <= a < b < |ms| ==> ms[a].day != ms[b].day
    requires multiset(s) == multiset(ms)
    requires 0 <= i < j < |s|
    ensures s[i].day != s[j].day
  {
    if s[i].day == s[j].day {
      assert s[i] in multiset(ms) && s[j] in multiset(ms);
      var a :| 0 <= a < |ms| && ms[a] == s[i];
      var b :| 0 <= b < |ms| && ms[b] == s[j];
      assert a == b;
      assert s[i] == s[j];
      assert s == s[..i] + [s[i]] + s[i + 1..j] + [s[j]] + s[j + 1..];
      assert multiset(s)[s[i]] >= 2;
      CountOfOneRow(ms, a);
    }
  }

  /** In a table with distinct days a row occurs once. */
  lemma CountOfOneRow(ms: seq<MenuJson>, a: int)
    requires forall x, y :: 0 <= x < y < |ms| ==> ms[x].day != ms[y].day
    requires 0 <= a < |ms|
    ensures multiset(ms)[ms[a]] == 1
  {
    assert ms == ms[..a] + [ms[a]] + ms[a + 1..];
    var head, tail := ms[..a], ms[a + 1..];
    assert ms[a] !in head by {
      forall x | 0 <= x < |head| ensures head[x] != ms[a] { assert head[x] == ms[x]; }
    }
    assert ms[a] !in tail by {
      forall x | 0 <= x < |tail| ensures tail[x] != ms[a] { assert tail[x] == ms[a + 1 + x]; }
    }
  }

  /** `text || "Not specified"`. */
  function MealText(text: string): (r: string)
    ensures r != ""
    ensures text != "" ==> r == text
    ensures text == "" ==> r == "Not specified"
  {
    if text == "" then "Not specified" else text
  }

  /** The three meal lines of a menu card. */
  function CardMeals(m: MenuJson): (string, string, string) {
    (MealText(m.breakfast), MealText(m.lunch), MealText(m.dinner))
  }

  /** The "No menu items found" block is shown exactly when the sorted menu is empty. */
  predicate ShowsEmptyState(shown: seq<MenuJson>) {
    |shown| == 0
  }

  lemma EmptyStateIffNoRows(ms: seq<MenuJson>)
    ensures ShowsEmptyState(SortedMenu(ms)) <==> ms == []
  {
    SortedMenuSpec(ms);
  }
}
