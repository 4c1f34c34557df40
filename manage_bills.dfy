/**
 * The staff billing page: the generation form with its defaults, the request
 * it posts, the reversed bill listing and the "Mark Paid" action.
 */
module ManageBills {
  import opened Common
  import opened Parsing
  import opened ApiJson
  import opened BillGeneration

  /** The form's seven text inputs. */
  datatype BillForm = BillForm(
    month: string, dailyRate: string, nvPlateRate: string,
    roomRent: string, waterCharges: string, electricityCharges: string, establishmentCharges: string)

  /** The input names `handleChange` receives. */
  datatype FormField =
    | MonthField | DailyRateField | NvPlateRateField
    | RoomRentField | WaterChargesField | ElectricityChargesField | EstablishmentChargesField

  /** The initial form, which a successful generation restores. */
  function DefaultForm(): BillForm {
    BillForm("", "", "", "150", "125", "150", "275")
  }

  function FieldValue(f: BillForm, field: FormField): string {
    match field
    case MonthField => f.month
    case DailyRateField => f.dailyRate
    case NvPlateRateField => f.nvPlateRate
    case RoomRentField => f.roomRent
    case WaterChargesField => f.waterCharges
    case ElectricityChargesField => f.electricityCharges
    case EstablishmentChargesField => f.establishmentCharges
  }

  /** `{ ...formData, [name]: value }`. */
  function SetField(f: BillForm, field: FormField, value: string): (r: BillForm)
    ensures FieldValue(r, field) == value
    ensures forall g :: g != field ==> FieldValue(r, g) == FieldValue(f, g)
  {
    match field
    case MonthField => f.(month := value)
    case DailyRateField => f.(dailyRate := value)
    case NvPlateRateField => f.(nvPlateRate := value)
    case RoomRentField => f.(roomRent := value)
    case WaterChargesField => f.(waterCharges := value)
    case ElectricityChargesField => f.(electricityCharges := value)
    case EstablishmentChargesField => f.(establishmentCharges := value)
  }

  /** The posted body: every input is sent, as text. */
  function FormRequest(f: BillForm): GenRequest {
    GenRequest(Some(JText(f.month)), Some(JText(f.dailyRate)), Some(JText(f.nvPlateRate)),
               Some(JText(f.roomRent)), Some(JText(f.waterCharges)),
               Some(JText(f.electricityCharges)), Some(JText(f.establishmentCharges)))
  }

  /** The untouched form is refused with "missing fields": month and the two meal rates start empty. */
  lemma DefaultFormRefused()
    ensures ParseRequest(FormRequest(DefaultForm())) == Refused(BadRequest(MissingFields))
  {
  }

  /** The form's default charges convert to the same values the server uses when a charge is left out. */
  lemma DefaultChargesMatchServer()
    ensures ToFloat(JText(DefaultForm().roomRent)) == Converted(DEFAULT_ROOM_RENT)
    ensures ToFloat(JText(DefaultForm().waterCharges)) == Converted(DEFAULT_WATER_CHARGES)
    ensures ToFloat(JText(DefaultForm().electricityCharges)) == Converted(DEFAULT_ELECTRICITY_CHARGES)
    ensures ToFloat(JText(DefaultForm().establishmentCharges)) == Converted(DEFAULT_ESTABLISHMENT_CHARGES)
  {
    assert DefaultForm().roomRent == ['1', '5', '0'] && DefaultForm().electricityCharges == ['1', '5', '0'];
    assert DefaultForm().waterCharges == ['1', '2', '5'] && DefaultForm().establishmentCharges == ['2', '7', '5'];
    ThreeDigitCharge('1', '5', '0', 150);
    ThreeDigitCharge('1', '2', '5', 125);
    ThreeDigitCharge('2', '7', '5', 275);
  }

  /** A three-digit charge converts to its value. */
  lemma ThreeDigitCharge(a: char, b: char, c: char, n: nat)
    requires IsDigit(a) && IsDigit(b) && IsDigit(c)
    requires n == 100 * DigitValue(a) + 10 * DigitValue(b) + DigitValue(c)
    ensures ToFloat(JText([a, b, c])) == Converted(n as real)
  {
    ThreeDigits(a, b, c);
    DecimalTextFloat([a, b, c], n);
  }

  lemma ThreeDigits(a: char, b: char, c: char)
    requires IsDigit(a) && IsDigit(b) && IsDigit(c)
    ensures AllDigits([a, b, c])
    ensures DigitsValue([a, b, c]) == 100 * DigitValue(a) + 10 * DigitValue(b) + DigitValue(c)
  {
    assert [a, b, c][..2] == [a, b] && [a, b][..1] == [a] && [a][..0] == [];
    assert DigitsValue([a]) == DigitValue(a);
    assert DigitsValue([a, b]) == DigitValue(a) * 10 + DigitValue(b);
  }

  lemma DecimalTextFloat(s: string, n: nat)
    requires |s| > 0 && AllDigits(s) && DigitsValue(s) == n
    ensures PyFloat(s) == Some(n as real)
  {
    ParseDigitsText(s);
    PyFloatExtendsPyInt(s, n);
  }

  /** A form is refused for missing fields exactly when month, daily rate or Non-Veg rate is left empty. */
  lemma FormMissingFields(f: BillForm)
    ensures ParseRequest(FormRequest(f)) == Refused(BadRequest(MissingFields)) <==>
      f.month == "" || f.dailyRate == "" || f.nvPlateRate == ""
  {
  }

  /** The listing: `[...bills].reverse()`. */
  function Listed(bills: seq<BillJson>): seq<BillJson> {
    Reverse(bills)
  }

  /** The "Mark Paid" button is shown for unpaid bills only. */
  predicate MarkPaidOffered(b: BillJson) {
    !b.isPaid
  }

  /** The server's state after `PATCH /bills/<id>/ {is_paid: true}`. */
  function PatchPaid(bills: seq<BillJson>, id: nat): (r: seq<BillJson>)
    ensures |r| == |bills|
    ensures forall i :: 0 <= i < |bills| ==> r[i] == if bills[i].id == id then bills[i].(isPaid := true) else bills[i]
  {
    Map(bills, (b: BillJson) => if b.id == id then b.(isPaid := true) else b)
  }

  /**
   * Marking paid only ever sets the flag: a paid bill stays paid, the marked
   * bill is paid and no longer offered, nothing else changes, and marking
   * again changes nothing.
   */
  lemma PatchPaidOnce(bills: seq<BillJson>, id: nat)
    ensures forall i :: 0 <= i < |bills| ==> PatchPaid(bills, id)[i].isPaid == (bills[i].isPaid || bills[i].id == id)
    ensures forall i :: 0 <= i < |bills| && bills[i].id == id ==> !MarkPaidOffered(PatchPaid(bills, id)[i])
    ensures forall i :: 0 <= i < |bills| ==> PatchPaid(bills, id)[i].(isPaid := bills[i].isPaid) == bills[i]
    ensures PatchPaid(PatchPaid(bills, id), id) == PatchPaid(bills, id)
  {
  }

  /** The page's state: the fetched bills and the form. */
  class BillsPage {
    var bills: seq<BillJson>
    var form: BillForm

    constructor()
      ensures bills == [] && form == DefaultForm()
    {
      bills := [];
      form := DefaultForm();
    }

    /** `fetchBills` succeeded with `fetched`. */
    method FetchBills(fetched: seq<BillJson>)
      modifies this
      ensures bills == fetched && form == old(form)
    {
      bills := fetched;
    }

    /** `handleChange`: one input of the form is set. */
    method HandleChange(field: FormField, value: string)
      modifies this
      ensures form == SetField(old(form), field, value) && bills == old(bills)
    {
      form := SetField(form, field, value);
    }

    /**
     * `handleGenerate`: after the confirmation, the form is posted; `response`
     * is the server's answer and `fetched` the refreshed list. Only a
     * successful generation refreshes the list and restores the default form.
     */
    method HandleGenerate(confirmed: bool, response: GenResponse, fetched: seq<BillJson>) returns (posted: Option<GenRequest>)
      modifies this
      ensures posted == (if confirmed then Some(FormRequest(old(form))) else None)
      ensures confirmed && response.Generated? ==> form == DefaultForm() && bills == fetched
      ensures !(confirmed && response.Generated?) ==> form == old(form) && bills == old(bills)
    {
      if !confirmed {
        return None;
      }
      posted := Some(FormRequest(form));
      if response.Generated? {
        bills := fetched;
        form := DefaultForm();
      }
    }

    /**
     * `markAsPaid(id)`: after the confirmation, `{is_paid: true}` is sent for
     * `id` and, when the update succeeded, the list is refetched.
     */
    method MarkAsPaid(id: nat, confirmed: bool, succeeded: bool, fetched: seq<BillJson>) returns (patch: Option<(nat, bool)>)
      modifies this
      ensures patch == (if confirmed then Some((id, true)) else None)
      ensures confirmed && succeeded ==> bills == fetched
      ensures !(confirmed && succeeded) ==> bills == old(bills)
      ensures form == old(form)
    {
      if !confirmed {
        return None;
      }
      patch := Some((id, true));
      if succeeded {
        bills := fetched;
      }
    }
  }
}
