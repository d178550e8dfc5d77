/** The form that records a transaction: the owner and property pickers,
    the sanitised amount, and the insert with the amount stored in dollars
    at 35.39 lira to the dollar next to the amount and currency entered.
    The signed-in user, the clock and the replies of the tables are
    inputs. */
module AddTransactionModal {
  import opened Wrappers
  import opened Entities
  import Text
  import Constants
  import FormFields

  const NoUserError := "No user found"
  const NoPropertyError := "Please select a property"
  const FallbackError := "Failed to add transaction"
  const OwnersError := "Failed to load owners"
  const PropertiesError := "Failed to load properties"

  datatype Owner = Owner(id: string, email: string, companyName: string)
  datatype PropertyOption = PropertyOption(id: string, name: string, address: string)

  datatype FormData = FormData(
    description: string,
    amount: string,
    kind: TransactionType,
    category: string,
    status: TransactionStatus,
    date: string,
    currency: Currency,
    ownerId: string,
    propertyId: string)

  /** The row inserted; `None` amounts are `NaN`. */
  datatype NewTransaction = NewTransaction(
    description: string,
    amount: Option<real>,
    kind: TransactionType,
    category: string,
    status: TransactionStatus,
    date: string,
    createdAt: string,
    updatedAt: string,
    userId: string,
    propertyId: string,
    originalCurrency: Currency,
    originalAmount: Option<real>)

  /** `usdAmount`: lira are divided by 35.39, dollars kept; `NaN` stays
      `NaN`. Shown back in the entered currency at the same rate, the
      stored amount is the amount entered. */
  function UsdAmount(entered: Option<real>, currency: Currency): (r: Option<real>)
    ensures r.None? <==> entered.None?
    ensures r.Some? ==> Constants.Convert(r.value, USD, currency) == entered.value
  {
    match entered
    case None => None
    case Some(v) => Some(if currency == TRY then v / Constants.UsdToTry else v)
  }

  /** The row `handleSubmit` inserts. */
  function Record(form: FormData, userId: string, now: string): NewTransaction {
    var amount := Text.ParseFloat(form.amount);
    NewTransaction(form.description, UsdAmount(amount, form.currency), form.kind, form.category,
                   form.status, form.date, now, now, userId, form.propertyId, form.currency, amount)
  }

  /** The row keeps what was entered: the amount and currency as typed,
      the property and user, and a dollar amount that converts back to
      the amount typed; it is created and last updated at the moment of
      submitting. */
  lemma RecordKeepsEntry(form: FormData, userId: string, now: string)
    ensures var r := Record(form, userId, now);
      && r.originalAmount == Text.ParseFloat(form.amount) && r.originalCurrency == form.currency
      && r.propertyId == form.propertyId && r.userId == userId
      && r.createdAt == now && r.updatedAt == now
      && (r.amount.Some? <==> r.originalAmount.Some?)
      && (r.amount.Some? ==> Constants.Convert(r.amount.value, USD, form.currency) == r.originalAmount.value)
  {
  }

  /** The reply of the insert: an error, or the row read back (if any). */
  datatype InsertReply = InsertFailed(caught: FormFields.Caught) | InsertDone(row: Option<Transaction>)

  /** The error shown, the row sent (if the insert was attempted), the
      row handed to `onAdd`, and whether the form closes. */
  datatype Outcome = Outcome(error: Option<string>, sent: Option<NewTransaction>,
                             added: Option<Transaction>, closed: bool)

  /** `handleSubmit`: the user and the property are checked first; then
      the row is inserted whatever the amount parses to. */
  function Submit(form: FormData, user: Option<string>, now: string, reply: InsertReply): Outcome {
    if user.None? then Outcome(Some(NoUserError), None, None, false)
    else if form.propertyId == "" then Outcome(Some(NoPropertyError), None, None, false)
    else
      var sent := Some(Record(form, user.value, now));
      match reply
      case InsertFailed(c) => Outcome(Some(FormFields.CaughtMessage(c, FallbackError)), sent, None, false)
      case InsertDone(row) => Outcome(None, sent, row, row.Some?)
  }

  /** Without a property nothing is inserted, and a signed-in user sees
      the property message. A row is added, and the form closed, exactly
      when the insert reads one back. */
  lemma SubmitGuards(form: FormData, user: Option<string>, now: string, reply: InsertReply)
    ensures form.propertyId == "" ==> Submit(form, user, now, reply).sent.None?
    ensures form.propertyId == "" && user.Some? ==> Submit(form, user, now, reply).error == Some(NoPropertyError)
    ensures Submit(form, user, now, reply).sent.Some? <==> user.Some? && form.propertyId != ""
    ensures Submit(form, user, now, reply).closed <==> Submit(form, user, now, reply).added.Some?
    ensures Submit(form, user, now, reply).added.Some? <==>
      user.Some? && form.propertyId != "" && reply.InsertDone? && reply.row.Some?
  {
  }

  /** An amount that is not a number is not caught: `"."` is sent as
      `NaN` in both amount columns. */
  lemma NoNaNGuard(form: FormData, userId: string, now: string, reply: InsertReply)
    requires form.amount == "." && form.propertyId != ""
    ensures Submit(form, Some(userId), now, reply).sent.Some?
    ensures Submit(form, Some(userId), now, reply).sent.value.amount.None?
    ensures Submit(form, Some(userId), now, reply).sent.value.originalAmount.None?
  {
    Text.ParseFloatExamples();
  }

  class AddTransactionForm {
    var form: FormData
    var owners: seq<Owner>
    var properties: seq<PropertyOption>
    var loading: bool
    var error: Option<string>

    /** An empty form for an income of category Rent, completed, in lira,
        dated `today`. */
    constructor(today: string)
      ensures form == FormData("", "", Income, "Rent", Completed, today, TRY, "", "")
      ensures owners == [] && properties == [] && !loading && error == None
    {
      form := FormData("", "", Income, "Rent", Completed, today, TRY, "", "");
      owners := [];
      properties := [];
      loading := false;
      error := None;
    }

    /** `loadOwners`. */
    method LoadOwners(failed: bool, data: Option<seq<Owner>>)
      modifies this
      ensures owners == if failed then old(owners) else data.GetOr([])
      ensures error == if failed then Some(OwnersError) else old(error)
      ensures form == old(form) && properties == old(properties) && loading == old(loading)
    {
      if failed {
        error := Some(OwnersError);
      } else {
        owners := data.GetOr([]);
      }
    }

    /** The owner picker: the property choice is cleared, and with no
        owner the property list is emptied (otherwise it is reloaded). */
    method SelectOwner(ownerId: string)
      modifies this
      ensures form == old(form).(ownerId := ownerId, propertyId := "")
      ensures properties == if ownerId == "" then [] else old(properties)
      ensures owners == old(owners) && loading == old(loading) && error == old(error)
    {
      form := form.(ownerId := ownerId, propertyId := "");
      if ownerId == "" {
        properties := [];
      }
    }

    /** `loadProperties(ownerId)`. */
    method LoadProperties(failed: bool, data: Option<seq<PropertyOption>>)
      modifies this
      ensures properties == if failed then old(properties) else data.GetOr([])
      ensures error == if failed then Some(PropertiesError) else old(error)
      ensures form == old(form) && owners == old(owners) && loading == old(loading)
    {
      if failed {
        error := Some(PropertiesError);
      } else {
        properties := data.GetOr([]);
      }
    }

    method SelectProperty(propertyId: string)
      modifies this
      ensures form == old(form).(propertyId := propertyId)
      ensures owners == old(owners) && properties == old(properties)
      ensures loading == old(loading) && error == old(error)
    {
      form := form.(propertyId := propertyId);
    }

    /** The amount field keeps only digits and dots. */
    method TypeAmount(value: string)
      modifies this
      ensures form == old(form).(amount := FormFields.Sanitise(value))
      ensures owners == old(owners) && properties == old(properties)
      ensures loading == old(loading) && error == old(error)
    {
      form := form.(amount := FormFields.Sanitise(value));
    }

    /** `handleSubmit` on the form's state: the error becomes the
        outcome's and loading ends. */
    method HandleSubmit(user: Option<string>, now: string, reply: InsertReply)
      returns (sent: Option<NewTransaction>, added: Option<Transaction>, closed: bool)
      modifies this
      ensures error == Submit(form, user, now, reply).error && !loading
      ensures sent == Submit(form, user, now, reply).sent
      ensures added == Submit(form, user, now, reply).added && closed == Submit(form, user, now, reply).closed
      ensures form == old(form) && owners == old(owners) && properties == old(properties)
    {
      loading := true;
      error := None;
      var outcome := Submit(form, user, now, reply);
      error := outcome.error;
      sent := outcome.sent;
      added := outcome.added;
      closed := outcome.closed;
      loading := false;
    }
  }

  /** After a new owner is picked, submitting fails on the property until
      one is chosen again. */
  lemma OwnerChangeNeedsProperty(form: FormData, ownerId: string, userId: string, now: string, reply: InsertReply)
    ensures Submit(form.(ownerId := ownerId, propertyId := ""), Some(userId), now, reply)
      == Outcome(Some(NoPropertyError), None, None, false)
  {
  }
}
