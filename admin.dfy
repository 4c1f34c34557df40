/**
 * The admin site's menu list columns, which shorten long meals, and its
 * "Mark selected bills as Paid" action.
 */
module Admin {
  import opened Common
  import opened Parsing
  import opened Models

  const LIST_TEXT_LIMIT: nat := 50

  /** `text[:50] + '...' if len(text) > 50 else text`. */
  function Truncated(text: string): (r: string)
    ensures |text| <= LIST_TEXT_LIMIT ==> r == text
    ensures |text| > LIST_TEXT_LIMIT ==> |r| == LIST_TEXT_LIMIT + 3 && r[..LIST_TEXT_LIMIT] == text[..LIST_TEXT_LIMIT] && r[LIST_TEXT_LIMIT..] == "..."
  {
    if |text| > LIST_TEXT_LIMIT then text[..LIST_TEXT_LIMIT] + "..." else text
  }

  /** The menu list's row: day, then `get_breakfast`, `get_lunch` and `get_dinner`. */
  function ListRow(m: MenuRow): (Weekday, string, string, string) {
    (m.day, Truncated(m.breakfast), Truncated(m.lunch), Truncated(m.dinner))
  }

  /**
   * Every meal column is at most 53 characters, is the meal itself when the
   * meal fits, and otherwise shows the meal's first 50 characters.
   */
  lemma ListRowSpec(m: MenuRow)
    ensures ListRow(m).0 == m.day
    ensures forall meal :: meal in [m.breakfast, m.lunch, m.dinner] ==>
      |Truncated(meal)| <= LIST_TEXT_LIMIT + 3 &&
      (|meal| <= LIST_TEXT_LIMIT ==> Truncated(meal) == meal) &&
      (|meal| > LIST_TEXT_LIMIT ==> meal[..LIST_TEXT_LIMIT] <= Truncated(meal))
  {
  }

  /** Shortening a shortened meal changes nothing. */
  lemma TruncatedIdempotent(text: string)
    ensures Truncated(Truncated(text)) == Truncated(text)
  {
    if |text| > LIST_TEXT_LIMIT {
      var r := Truncated(text);
      assert r[..LIST_TEXT_LIMIT] + "..." == r;
    }
  }

  /** `queryset.update(is_paid=True)` on the bills whose ids are `selected`. */
  function MarkAsPaid(t: BillTable, selected: set<nat>): (r: (BillTable, nat))
    ensures r.0.nextId == t.nextId && |r.0.rows| == |t.rows|
    ensures forall i :: 0 <= i < |t.rows| ==>
      r.0.rows[i].isPaid == (t.rows[i].isPaid || t.rows[i].id in selected) &&
      r.0.rows[i].(isPaid := t.rows[i].isPaid) == t.rows[i]
    ensures r.1 == |Filter(t.rows, Selected(selected))|
  {
    (BillTable(Map(t.rows, (b: Bill) => if b.id in selected then b.(isPaid := true) else b), t.nextId),
     |Filter(t.rows, Selected(selected))|)
  }

  function Selected(selected: set<nat>): Bill -> bool {
    (b: Bill) => b.id in selected
  }

  /** The action's message: `f'{updated} bills marked as paid.'`. */
  function PaidMessage(updated: nat): (msg: string)
    ensures exists d :: msg == d + " bills marked as paid." && AllDigits(d) && |d| > 0 && DigitsValue(d) == updated
  {
    NatToDecimalValue(updated);
    NatToDecimal(updated) + " bills marked as paid."
  }

  /**
   * The action keeps the table valid and one bill per month, counts each
   * selected bill once, reports every selected id of the table when ids are
   * the table's, and running it again changes nothing more.
   */
  lemma MarkAsPaidSpec(t: BillTable, selected: set<nat>)
    requires ValidBillTable(t)
    ensures ValidBillTable(MarkAsPaid(t, selected).0)
    ensures OneBillPerMonth(t.rows) ==> OneBillPerMonth(MarkAsPaid(t, selected).0.rows)
    ensures MarkAsPaid(t, selected).1 <= |t.rows|
    ensures selected == {} ==> MarkAsPaid(t, selected) == (t, 0)
    ensures MarkAsPaid(MarkAsPaid(t, selected).0, selected).0 == MarkAsPaid(t, selected).0
  {
    var r := MarkAsPaid(t, selected).0;
    assert forall i :: 0 <= i < |t.rows| ==> r.rows[i].id == t.rows[i].id && r.rows[i].student == t.rows[i].student && r.rows[i].month == t.rows[i].month;
    if selected == {} {
      FilterNone(t.rows, Selected(selected));
      assert r.rows == t.rows;
    }
    var r2 := MarkAsPaid(r, selected).0;
    assert r2.rows == r.rows;
  }
}
