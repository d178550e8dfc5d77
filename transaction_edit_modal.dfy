/** The form that edits or deletes a transaction. It opens on the amount
    and currency first entered, stores the dollar amount at 30.5 lira to
    the dollar, and hands the row read back (or the deleted id) to the
    list. The clock and the replies of the table are inputs. */
module TransactionEditModal {
  import opened Wrappers
  import opened Entities
  import Money
  import FormFields
  import AddTransactionModal

  const EditRate: real := 30.5

  datatype FormData = FormData(
    description: string,
    amount: FormFields.Field,
    kind: TransactionType,
    category: string,
    status: TransactionStatus,
    date: int,
    currency: Currency)

  /** The form opens on the amount entered (or the stored amount when
      none was kept) and its currency, dollars when none was kept. */
  function InitialForm(t: Transaction): (f: FormData)
    ensures FormFields.AsFloat(f.amount) == Some(if t.originalAmount.Some? then t.originalAmount.value else t.amount)
    ensures f.currency == if t.originalCurrency.Some? then t.originalCurrency.value else USD
    ensures f.description == t.description && f.kind == t.kind && f.category == t.category
    ensures f.status == t.status
  {
    FormData(t.description, FormFields.Shown(t.originalAmount.GetOr(t.amount)), t.kind, t.category,
             t.status, t.date, t.originalCurrency.GetOr(USD))
  }

  /** The fields `handleSubmit` writes; `None` amounts are `NaN`. */
  datatype Changes = Changes(
    description: string,
    amount: Option<real>,
    kind: TransactionType,
    category: string,
    status: TransactionStatus,
    date: int,
    updatedAt: string,
    originalCurrency: Currency,
    originalAmount: Option<real>)

  /** `usdAmount` on editing: lira are divided by 30.5. Multiplied back at
      that rate, the stored amount is the amount entered. */
  function UsdAmount(entered: Option<real>, currency: Currency): (r: Option<real>)
    ensures r.None? <==> entered.None?
    ensures r.Some? && currency == TRY ==> r.value * EditRate == entered.value
    ensures r.Some? && currency == USD ==> r.value == entered.value
  {
    match entered
    case None => None
    case Some(v) => Some(if currency == TRY then v / EditRate else v)
  }

  function Update(form: FormData, now: string): Changes {
    var amount := FormFields.AsFloat(form.amount);
    Changes(form.description, UsdAmount(amount, form.currency), form.kind, form.category,
            form.status, form.date, now, form.currency, amount)
  }

  /** The row as the table holds it after the update. */
  function Applied(t: Transaction, c: Changes): Transaction
    requires c.amount.Some?
  {
    t.(description := c.description, amount := c.amount.value, kind := c.kind, category := c.category,
       status := c.status, date := c.date, originalCurrency := Some(c.originalCurrency), originalAmount := c.originalAmount)
  }

  /** The dollar amount written agrees with the dashboards, which value a
      lira transaction at 30.5 from its entered amount. */
  lemma UpdateAgreesWithDashboard(t: Transaction, form: FormData, now: string)
    requires FormFields.AsFloat(form.amount).Some?
    ensures Money.UsdValue(Applied(t, Update(form, now))) == Update(form, now).amount.value
  {
  }

  /** Saving a lira transaction without changing anything rewrites its
      dollar amount: it was stored at 35.39 when created and is stored at
      30.5 now, so any nonzero amount changes. */
  lemma UnchangedSaveChangesDollars(form: AddTransactionModal.FormData, userId: string, created: string,
                                     t: Transaction, now: string)
    requires form.currency == TRY
    requires AddTransactionModal.Record(form, userId, created).originalAmount == Some(t.originalAmount.GetOr(0.0))
    requires t.originalAmount.Some? && t.originalAmount.value != 0.0 && t.originalCurrency == Some(TRY)
    requires t.amount == AddTransactionModal.Record(form, userId, created).amount.value
    ensures Update(InitialForm(t), now).amount.value != t.amount
    ensures Update(InitialForm(t), now).amount.value * EditRate == t.amount * 35.39
  {
    var v := t.originalAmount.value;
    assert t.amount * 35.39 == v;
    assert Update(InitialForm(t), now).amount.value * EditRate == v;
  }

  /** A dollar transaction saved unchanged keeps its amount. */
  lemma UnchangedDollarSaveKeepsAmount(t: Transaction, now: string)
    requires t.originalCurrency != Some(TRY)
    requires t.originalAmount.None? || t.originalAmount == Some(t.amount)
    ensures Update(InitialForm(t), now).amount == Some(t.amount)
    ensures Update(InitialForm(t), now).originalAmount == Some(t.amount)
  {
  }

  /** The reply of the update: an error, or the row read back (if any). */
  datatype UpdateReply = UpdateFailed | UpdateDone(row: Option<Transaction>)

  class EditForm {
    const transaction: Transaction
    var form: FormData
    var loading: bool
    var showDeleteConfirm: bool

    constructor(t: Transaction)
      ensures transaction == t && form == InitialForm(t) && !loading && !showDeleteConfirm
    {
      transaction := t;
      form := InitialForm(t);
      loading := false;
      showDeleteConfirm := false;
    }

    /** The amount field keeps only digits and dots. */
    method TypeAmount(value: string)
      modifies this
      ensures form == old(form).(amount := FormFields.Entered(FormFields.Sanitise(value)))
      ensures loading == old(loading) && showDeleteConfirm == old(showDeleteConfirm)
    {
      form := form.(amount := FormFields.Entered(FormFields.Sanitise(value)));
    }

    method SelectCurrency(currency: Currency)
      modifies this
      ensures form == old(form).(currency := currency)
      ensures loading == old(loading) && showDeleteConfirm == old(showDeleteConfirm)
    {
      form := form.(currency := currency);
    }

    /** `handleSubmit`: the changes are sent; the row read back goes to
        `onUpdate` and the form closes only when there is one. Errors are
        only logged. Loading ends either way. */
    method HandleSubmit(now: string, reply: UpdateReply) returns (sent: Changes, updated: Option<Transaction>, closed: bool)
      modifies this
      ensures sent == Update(form, now)
      ensures updated == (if reply.UpdateDone? then reply.row else None)
      ensures closed <==> updated.Some?
      ensures !loading && form == old(form) && showDeleteConfirm == old(showDeleteConfirm)
    {
      loading := true;
      sent := Update(form, now);
      updated := None;
      if reply.UpdateDone? && reply.row.Some? {
        updated := reply.row;
      }
      closed := updated.Some?;
      loading := false;
    }

    method AskDelete()
      modifies this
      ensures showDeleteConfirm && form == old(form) && loading == old(loading)
    {
      showDeleteConfirm := true;
    }

    method CancelDelete()
      modifies this
      ensures !showDeleteConfirm && form == old(form) && loading == old(loading)
    {
      showDeleteConfirm := false;
    }

    /** `handleDelete`: `onDelete(id)` and closing happen only after the
        delete succeeds. Its button is only rendered in the confirmation. */
    method HandleDelete(failed: bool) returns (deleted: Option<string>, closed: bool)
      requires showDeleteConfirm
      modifies this
      ensures deleted == (if failed then None else Some(transaction.id))
      ensures closed <==> !failed
      ensures !loading && form == old(form) && showDeleteConfirm == old(showDeleteConfirm)
    {
      loading := true;
      if failed {
        deleted := None;
        closed := false;
      } else {
        deleted := Some(transaction.id);
        closed := true;
      }
      loading := false;
    }
  }
}
