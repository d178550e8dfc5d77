/** The form that edits a property: it opens on the rate first entered
    and its currency, stores the dollar rate at 30.5 lira to the dollar,
    previews the rate in the other currency at that rate, and hands the
    row read back to the list. The reply of the update is an input. */
module EditPropertyModal {
  import opened Wrappers
  import opened Entities
  import Constants
  import FormFields
  import AddPropertyModal

  const ExchangeRate: real := 30.5
  const UpdateError := "Failed to update property. Please try again."

  datatype FormData = FormData(
    name: string,
    address: string,
    monthlyRate: FormFields.Field,
    currency: Currency,
    propertyType: string,
    status: string,
    bedrooms: FormFields.Field,
    bathrooms: FormFields.Field,
    area: FormFields.Field,
    image: string)

  function Whole(x: Option<int>): Option<real> {
    match x
    case Some(n) => Some(n as real)
    case None => None
  }

  /** `s || fallback` for a text. */
  function OrDefault(s: string, fallback: string): string {
    if s == "" then fallback else s
  }

  /** The form the modal opens on. */
  function InitialForm(p: Property): FormData {
    FormData(p.name.GetOr(""), p.address.GetOr(""),
             if p.originalAmount.Some? then FormFields.Shown(p.originalAmount.value) else FormFields.Prefill(p.monthlyRate),
             p.originalCurrency.GetOr(TRY), OrDefault(p.propertyType, "apartment"), OrDefault(p.status, "available"),
             FormFields.Prefill(Whole(p.bedrooms)), FormFields.Prefill(Whole(p.bathrooms)),
             FormFields.Prefill(p.area), p.image.GetOr(""))
  }

  /** The rate field opens on the amount entered, else on the stored
      dollar rate, else empty; the currency on the one entered, else lira.
      Stored whole numbers of rooms read back unchanged. */
  lemma InitialRate(p: Property)
    ensures FormFields.AsFloat(InitialForm(p).monthlyRate) ==
      (if p.originalAmount.Some? then p.originalAmount else p.monthlyRate)
    ensures FormFields.Filled(InitialForm(p).monthlyRate) <==> p.originalAmount.Some? || p.monthlyRate.Some?
    ensures InitialForm(p).currency == if p.originalCurrency.Some? then p.originalCurrency.value else TRY
    ensures p.bedrooms.Some? ==> FormFields.AsInt(InitialForm(p).bedrooms) == p.bedrooms
  {
    if p.bedrooms.Some? {
      FormFields.ShownIntRoundTrip(p.bedrooms.value);
    }
  }

  /** The fields written; `None` numbers are `NaN`. */
  datatype Changes = Changes(
    name: string,
    address: string,
    monthlyRate: Option<real>,
    originalCurrency: Currency,
    originalAmount: Option<real>,
    propertyType: string,
    status: string,
    bedrooms: Option<int>,
    bathrooms: Option<int>,
    area: Option<real>,
    image: string)

  /** `usdAmount` on editing: lira are divided by 30.5. */
  function UsdRate(entered: Option<real>, currency: Currency): (r: Option<real>)
    ensures r.None? <==> entered.None?
    ensures r.Some? && currency == TRY ==> r.value * ExchangeRate == entered.value
    ensures r.Some? && currency == USD ==> r.value == entered.value
  {
    match entered
    case None => None
    case Some(v) => Some(if currency == TRY then v / ExchangeRate else v)
  }

  /** `propertyData`: there is no guard on the rate, and an empty area is
      `NaN` rather than 0. */
  function Update(form: FormData): Changes {
    var amount := FormFields.AsFloat(form.monthlyRate);
    Changes(form.name, form.address, UsdRate(amount, form.currency), form.currency, amount,
            form.propertyType, form.status, FormFields.AsInt(form.bedrooms), FormFields.AsInt(form.bathrooms),
            FormFields.AsFloat(form.area), form.image)
  }

  /** Saving a lira property without changing anything rewrites its
      dollar rate: it was stored at 35.39 when added and is stored at 30.5
      now. */
  lemma UnchangedSaveChangesDollars(form: AddPropertyModal.FormData, amount: real, p: Property)
    requires form.currency == TRY && amount != 0.0
    requires p.originalAmount == Some(amount) && p.originalCurrency == Some(TRY)
    requires p.monthlyRate == Some(AddPropertyModal.Record(form, amount).monthlyRate)
    ensures Update(InitialForm(p)).monthlyRate.Some?
    ensures Update(InitialForm(p)).monthlyRate.value != p.monthlyRate.value
    ensures Update(InitialForm(p)).monthlyRate.value * ExchangeRate == p.monthlyRate.value * Constants.UsdToTry
    ensures Update(InitialForm(p)).originalAmount == p.originalAmount
  {
    assert p.monthlyRate.value * Constants.UsdToTry == amount;
  }

  /** The line under the rate: the other currency's sign, the converted
      amount in cents (`None` is `NaN`), and that currency. */
  datatype Preview = Preview(sign: char, cents: Option<int>, currency: Currency)

  /** `toFixed(2)` of an amount, in cents. */
  function Cents(x: Option<real>): Option<int> {
    match x
    case Some(v) => Some(Constants.RoundHalfAway(v * 100.0))
    case None => None
  }

  /** The preview, shown only when the rate field is not empty: lira are
      shown in dollars (divided by 30.5), dollars in lira (multiplied). */
  function RatePreview(form: FormData): Option<Preview> {
    if !FormFields.Filled(form.monthlyRate) then None
    else
      var amount := FormFields.AsFloat(form.monthlyRate);
      if form.currency == TRY then Some(Preview('$', Cents(UsdRate(amount, TRY)), USD))
      else
        var lira := match amount case Some(v) => Some(v * ExchangeRate) case None => None;
        Some(Preview('\U{20BA}', Cents(lira), TRY))
  }

  /** For lira the preview is the dollar rate that saving stores, to the
      cent; for dollars it is the amount that, divided by 30.5 again,
      gives back the dollars entered. */
  lemma PreviewMatchesStored(form: FormData)
    requires FormFields.Filled(form.monthlyRate)
    ensures form.currency == TRY ==>
      RatePreview(form) == Some(Preview('$', Cents(Update(form).monthlyRate), USD))
    ensures form.currency == USD && FormFields.AsFloat(form.monthlyRate).Some? ==>
      RatePreview(form).value.currency == TRY
      && UsdRate(Some(FormFields.AsFloat(form.monthlyRate).value * ExchangeRate), TRY) == Update(form).monthlyRate
  {
  }

  /** The reply of the update: an error, or the row read back (if any). */
  datatype UpdateReply = UpdateFailed | UpdateDone(row: Option<Property>)

  class EditPropertyForm {
    var form: FormData
    var loading: bool
    var error: Option<string>

    constructor(p: Property)
      ensures form == InitialForm(p) && !loading && error == None
    {
      form := InitialForm(p);
      loading := false;
      error := None;
    }

    /** The rate field keeps only digits and dots. */
    method TypeRate(value: string)
      modifies this
      ensures form == old(form).(monthlyRate := FormFields.Entered(FormFields.Sanitise(value)))
      ensures loading == old(loading) && error == old(error)
    {
      form := form.(monthlyRate := FormFields.Entered(FormFields.Sanitise(value)));
    }

    method SelectCurrency(currency: Currency)
      modifies this
      ensures form == old(form).(currency := currency)
      ensures loading == old(loading) && error == old(error)
    {
      form := form.(currency := currency);
    }

    /** `handleSubmit`: every failure shows the same message; the row read
        back goes to `onUpdate` and the form closes only when there is one. */
    method HandleSubmit(reply: UpdateReply) returns (sent: Changes, updated: Option<Property>, closed: bool)
      modifies this
      ensures sent == Update(form) && form == old(form) && !loading
      ensures error == (if reply.UpdateFailed? then Some(UpdateError) else None)
      ensures updated == (if reply.UpdateDone? then reply.row else None)
      ensures closed <==> updated.Some?
    {
      loading := true;
      error := None;
      sent := Update(form);
      updated := None;
      if reply.UpdateFailed? {
        error := Some(UpdateError);
      } else if reply.row.Some? {
        updated := reply.row;
      }
      closed := updated.Some?;
      loading := false;
    }
  }
}
