/** The form that adds a property: a sanitised monthly rate that must
    parse, stored in dollars at 35.39 lira to the dollar next to the rate
    and currency entered; empty optional fields stored as `null` (the area
    as 0). The signed-in user and the reply of the insert are inputs. */
module AddPropertyModal {
  import opened Wrappers
  import opened Entities
  import Text
  import Constants
  import FormFields

  const NoUserError := "No authenticated user found"
  const InvalidRate := "Invalid monthly rate"
  const NoDataError := "No data returned from insert"
  const FallbackError := "Failed to add property"

  datatype FormData = FormData(
    name: string,
    address: string,
    monthlyRate: string,
    currency: Currency,
    propertyType: string,
    status: string,
    bedrooms: string,
    bathrooms: string,
    area: string,
    image: string,
    assignedTo: string,
    tenantName: string,
    tenantExitDate: string)

  /** The empty form, in lira, assigned to the owner selected in the list
      (or to nobody). */
  function InitialForm(selectedOwner: Option<string>): (f: FormData)
    ensures f.assignedTo == (if selectedOwner.Some? then selectedOwner.value else "")
    ensures f.currency == TRY && f.monthlyRate == "" && f.propertyType == "apartment" && f.status == "available"
  {
    FormData("", "", "", TRY, "apartment", "available", "", "", "", "", selectedOwner.GetOr(""), "", "")
  }

  /** The row inserted; `None` numbers are `NaN`, `None` texts `null`. */
  datatype NewProperty = NewProperty(
    name: string,
    address: string,
    monthlyRate: real,
    originalCurrency: Currency,
    originalAmount: real,
    propertyType: string,
    status: string,
    bedrooms: Option<int>,
    bathrooms: Option<int>,
    area: Option<real>,
    image: Option<string>,
    assignedTo: string,
    tenantName: Option<string>,
    tenantExitDate: Option<string>)

  /** `usdAmount` for a rate that parsed: lira are divided by 35.39. Shown
      back in the entered currency, it is the rate entered. */
  function UsdRate(amount: real, currency: Currency): (r: real)
    ensures Constants.Convert(r, USD, currency) == amount
  {
    if currency == TRY then amount / Constants.UsdToTry else amount
  }

  /** `propertyData`, for a rate that parsed to `amount`. */
  function Record(form: FormData, amount: real): NewProperty {
    NewProperty(form.name, form.address, UsdRate(amount, form.currency), form.currency, amount,
                form.propertyType, form.status, FormFields.ParseInt(form.bedrooms),
                FormFields.ParseInt(form.bathrooms),
                Text.ParseFloat(if form.area == "" then "0" else form.area),
                FormFields.NullIfEmpty(form.image), form.assignedTo,
                FormFields.NullIfEmpty(form.tenantName), FormFields.NullIfEmpty(form.tenantExitDate))
  }

  /** Empty image, tenant and exit-date fields become `null` and an empty
      area becomes 0; the owner is the one chosen. */
  lemma EmptyFieldsStored(form: FormData, amount: real)
    ensures Record(form, amount).image.None? <==> form.image == ""
    ensures Record(form, amount).tenantName.None? <==> form.tenantName == ""
    ensures Record(form, amount).tenantExitDate.None? <==> form.tenantExitDate == ""
    ensures form.area == "" ==> Record(form, amount).area == Some(0.0)
    ensures Record(form, amount).assignedTo == form.assignedTo
  {
    if form.area == "" {
      ZeroParses();
    }
  }

  lemma ZeroParses()
    ensures Text.ParseFloat("0") == Some(0.0)
  {
    assert Text.LeadingDigits("0") == 1;
    assert "0"[..1] == "0";
    assert "0"[1..] == "";
  }

  /** The reply of the insert: an error, or the row read back (if any). */
  datatype InsertReply = InsertFailed(caught: FormFields.Caught) | InsertDone(row: Option<Property>)

  datatype Outcome = Outcome(error: Option<string>, sent: Option<NewProperty>,
                             added: Option<Property>, closed: bool)

  /** `handleSubmit`: the user, then the rate, are checked before the
      insert; an insert that reads nothing back is an error. */
  function Submit(form: FormData, user: Option<string>, reply: InsertReply): Outcome {
    if user.None? then Outcome(Some(NoUserError), None, None, false)
    else
      match Text.ParseFloat(form.monthlyRate)
      case None => Outcome(Some(InvalidRate), None, None, false)
      case Some(amount) =>
        var sent := Some(Record(form, amount));
        match reply
        case InsertFailed(c) => Outcome(Some(FormFields.CaughtMessage(c, FallbackError)), sent, None, false)
        case InsertDone(None) => Outcome(Some(NoDataError), sent, None, false)
        case InsertDone(Some(row)) => Outcome(None, sent, Some(row), true)
  }

  /** Nothing is inserted without a user or with a rate that does not
      parse; what is inserted carries the rate and currency entered and a
      dollar rate that converts back to it. */
  lemma SubmitGuards(form: FormData, user: Option<string>, reply: InsertReply)
    ensures Submit(form, user, reply).sent.Some? <==> user.Some? && Text.ParseFloat(form.monthlyRate).Some?
    ensures user.Some? && Text.ParseFloat(form.monthlyRate).None? ==> Submit(form, user, reply).error == Some(InvalidRate)
    ensures Submit(form, user, reply).sent.Some? ==>
      var r := Submit(form, user, reply).sent.value;
      && Some(r.originalAmount) == Text.ParseFloat(form.monthlyRate) && r.originalCurrency == form.currency
      && Constants.Convert(r.monthlyRate, USD, form.currency) == r.originalAmount
    ensures Submit(form, user, reply).closed <==> Submit(form, user, reply).error.None?
  {
  }

  /** Through the sanitiser a blank or lone-dot rate is refused, and no
      rate stored is negative. */
  lemma SanitisedRate(typed: string, user: string, reply: InsertReply)
    ensures FormFields.Sanitise(typed) == "" || FormFields.Sanitise(typed) == "." ==>
      Submit(InitialForm(None).(monthlyRate := FormFields.Sanitise(typed)), Some(user), reply).error == Some(InvalidRate)
    ensures Text.ParseFloat(FormFields.Sanitise(typed)).Some? ==> Text.ParseFloat(FormFields.Sanitise(typed)).value >= 0.0
  {
    Text.ParseFloatExamples();
    Text.SanitisedNeverNegative(typed);
  }

  class AddPropertyForm {
    var form: FormData
    var loading: bool
    var error: Option<string>

    constructor(selectedOwner: Option<string>)
      ensures form == InitialForm(selectedOwner) && !loading && error == None
    {
      form := InitialForm(selectedOwner);
      loading := false;
      error := None;
    }

    /** The rate field keeps only digits and dots. */
    method TypeRate(value: string)
      modifies this
      ensures form == old(form).(monthlyRate := FormFields.Sanitise(value))
      ensures loading == old(loading) && error == old(error)
    {
      form := form.(monthlyRate := FormFields.Sanitise(value));
    }

    method SelectOwner(ownerId: string)
      modifies this
      ensures form == old(form).(assignedTo := ownerId)
      ensures loading == old(loading) && error == old(error)
    {
      form := form.(assignedTo := ownerId);
    }

    /** `handleSubmit` on the form's state. */
    method HandleSubmit(user: Option<string>, reply: InsertReply)
      returns (sent: Option<NewProperty>, added: Option<Property>, closed: bool)
      modifies this
      ensures error == Submit(form, user, reply).error && !loading
      ensures sent == Submit(form, user, reply).sent && added == Submit(form, user, reply).added
      ensures closed == Submit(form, user, reply).closed && form == old(form)
    {
      loading := true;
      error := None;
      var outcome := Submit(form, user, reply);
      error := outcome.error;
      sent := outcome.sent;
      added := outcome.added;
      closed := outcome.closed;
      loading := false;
    }
  }
}
