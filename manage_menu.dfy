/**
 * The staff menu page: the sorted weekly menu, one row in edit mode at a
 * time, and the save that patches the row's three meals.
 */
module ManageMenu {
  import opened Common
  import opened ApiJson
  import opened WeekMenu

  /** The edit form's three inputs. */
  datatype MealForm = MealForm(breakfast: string, lunch: string, dinner: string)

  /** The input names `handleChange` receives. */
  datatype MealField = BreakfastField | LunchField | DinnerField

  function EmptyForm(): MealForm {
    MealForm("", "", "")
  }

  function MealValue(f: MealForm, field: MealField): string {
    match field
    case BreakfastField => f.breakfast
    case LunchField => f.lunch
    case DinnerField => f.dinner
  }

  /** `{ ...editForm, [name]: value }`. */
  function SetMeal(f: MealForm, field: MealField, value: string): (r: MealForm)
    ensures MealValue(r, field) == value
    ensures forall g :: g != field ==> MealValue(r, g) == MealValue(f, g)
  {
    match field
    case BreakfastField => f.(breakfast := value)
    case LunchField => f.(lunch := value)
    case DinnerField => f.(dinner := value)
  }

  /** The form a row's "Edit" button opens: a copy of its three meals. */
  function FormOf(item: MenuJson): (r: MealForm)
    ensures MealValue(r, BreakfastField) == item.breakfast
    ensures MealValue(r, LunchField) == item.lunch
    ensures MealValue(r, DinnerField) == item.dinner
  {
    MealForm(item.breakfast, item.lunch, item.dinner)
  }

  /** The server's row after `PATCH /menu/<id>/` with the form: the day and id are kept. */
  function Patched(item: MenuJson, f: MealForm): (r: MenuJson)
    ensures r.id == item.id && r.day == item.day
    ensures FormOf(r) == f
  {
    item.(breakfast := f.breakfast, lunch := f.lunch, dinner := f.dinner)
  }

  /** Opening a row and saving the untouched form gives the row back. */
  lemma SaveUnchangedForm(item: MenuJson)
    ensures Patched(item, FormOf(item)) == item
  {
  }

  /** The page's state. */
  class MenuEditor {
    var menu: seq<MenuJson>
    var editingId: Option<nat>
    var editForm: MealForm

    /** Rendered with its inputs: the row being edited. */
    predicate Editing(item: MenuJson)
      reads this
    {
      editingId == Some(item.id)
    }

    /** The "Edit" button is shown on every row that is not being edited. */
    predicate EditButtonShown(item: MenuJson)
      reads this
      ensures EditButtonShown(item) <==> !Editing(item)
    {
      editingId != Some(item.id)
    }

    constructor()
      ensures menu == [] && editingId == None && editForm == EmptyForm()
    {
      menu := [];
      editingId := None;
      editForm := EmptyForm();
    }

    /** `fetchMenu` succeeded with `fetched`: the rows are shown Monday to Sunday. */
    method FetchMenu(fetched: seq<MenuJson>)
      modifies this
      ensures menu == SortedMenu(fetched)
      ensures multiset(menu) == multiset(fetched)
      ensures forall i, j :: 0 <= i < j < |menu| ==> DayOrder(menu[i].day) <= DayOrder(menu[j].day)
      ensures editingId == old(editingId) && editForm == old(editForm)
    {
      menu := SortedMenu(fetched);
      SortedMenuSpec(fetched);
    }

    /** `handleEditClick(item)`: that row, and only that row, is in edit mode, with its meals in the form. */
    method HandleEditClick(item: MenuJson)
      modifies this
      ensures editingId == Some(item.id) && editForm == FormOf(item)
      ensures forall other: MenuJson :: Editing(other) <==> other.id == item.id
      ensures menu == old(menu)
    {
      editingId := Some(item.id);
      editForm := FormOf(item);
    }

    /** `handleCancelEdit`: no row is in edit mode and the form is cleared. */
    method HandleCancelEdit()
      modifies this
      ensures editingId == None && editForm == EmptyForm()
      ensures forall item: MenuJson :: EditButtonShown(item)
      ensures menu == old(menu)
    {
      editingId := None;
      editForm := EmptyForm();
    }

    /** `handleChange`: one input of the form is set. */
    method HandleChange(field: MealField, value: string)
      modifies this
      ensures editForm == SetMeal(old(editForm), field, value)
      ensures editingId == old(editingId) && menu == old(menu)
    {
      editForm := SetMeal(editForm, field, value);
    }

    /**
     * `handleSave(id)`: the form is sent for row `id`; when the update
     * succeeded, edit mode ends and the menu is refetched as `fetched`, and
     * otherwise nothing changes. The form is not cleared on success.
     */
    method HandleSave(id: nat, succeeded: bool, fetched: seq<MenuJson>) returns (patch: (nat, MealForm))
      modifies this
      ensures patch == (id, old(editForm))
      ensures succeeded ==> editingId == None && menu == SortedMenu(fetched)
      ensures !succeeded ==> editingId == old(editingId) && menu == old(menu)
      ensures editForm == old(editForm)
    {
      patch := (id, editForm);
      if succeeded {
        editingId := None;
        FetchMenu(fetched);
      }
    }
  }
}
