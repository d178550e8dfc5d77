/** The transactions page: the user's transactions as a list that the add,
    edit and delete dialogs update in place, a search-and-filter view of
    it, and the amount shown per row. The rows of the initial read (the
    user's transactions, newest first) are an input. */
module Transactions {
  import opened Wrappers
  import opened Entities
  import Lists
  import Text

  const LoadError := "Failed to load transactions"

  function SameId(id: string): Transaction -> bool {
    (t: Transaction) => t.id == id
  }

  function OtherId(id: string): Transaction -> bool {
    (t: Transaction) => t.id != id
  }

  /** `current.map(t => t.id === updated.id ? updated : t)`. */
  function Updated(ts: seq<Transaction>, u: Transaction): (r: seq<Transaction>)
    ensures |r| == |ts|
    ensures forall i :: 0 <= i < |ts| ==> r[i].id == ts[i].id
    ensures forall i :: 0 <= i < |ts| ==> r[i] == if ts[i].id == u.id then u else ts[i]
  {
    Lists.ReplaceWhere(ts, SameId(u.id), u)
  }

  /** `current.filter(t => t.id !== id)`. */
  function Deleted(ts: seq<Transaction>, id: string): seq<Transaction> {
    Lists.Filter(ts, OtherId(id))
  }

  /** Delete keeps exactly the transactions with another id, in order. */
  lemma DeletedExactly(ts: seq<Transaction>, id: string)
    ensures forall t :: t in Deleted(ts, id) <==> t in ts && t.id != id
    ensures Lists.IsSubsequence(Deleted(ts, id), ts)
  {
    assert forall t :: OtherId(id)(t) == (t.id != id);
    Lists.FilterIsSubsequence(ts, OtherId(id));
  }

  /** Deleting an updated transaction leaves what deleting the original
      would have left. */
  lemma DeleteAfterUpdate(ts: seq<Transaction>, u: Transaction)
    ensures Deleted(Updated(ts, u), u.id) == Deleted(ts, u.id)
  {
    assert forall t :: OtherId(u.id)(t) == !SameId(u.id)(t);
    Lists.FilterAfterReplace(ts, SameId(u.id), u, OtherId(u.id));
  }

  /** Applying the same update twice is applying it once. */
  lemma UpdateIdempotent(ts: seq<Transaction>, u: Transaction)
    ensures Updated(Updated(ts, u), u) == Updated(ts, u)
  {
    Lists.ReplaceWhereIdempotent(ts, SameId(u.id), u);
  }

  /** Adding and then deleting by the new id leaves the list as deleting
      alone would. */
  lemma DeleteAfterAdd(ts: seq<Transaction>, t: Transaction)
    ensures Deleted([t] + ts, t.id) == Deleted(ts, t.id)
  {
    Lists.FilterRejectedHead(t, ts, OtherId(t.id));
  }

  /** The search box and the two drop-downs. */
  datatype Filters = Filters(search: string, kind: Choice<TransactionType>, status: Choice<TransactionStatus>)

  /** Description search (case-insensitive) and type and status. */
  predicate Matches(t: Transaction, f: Filters) {
    Text.MatchesSearch(t.description, f.search) && f.kind.Admits(t.kind) && f.status.Admits(t.status)
  }

  function MatchQuery(f: Filters): Transaction -> bool {
    (t: Transaction) => Matches(t, f)
  }

  /** `filteredTransactions`. */
  function Visible(ts: seq<Transaction>, f: Filters): seq<Transaction> {
    Lists.Filter(ts, MatchQuery(f))
  }

  /** The view shows exactly the matching transactions, in list order. */
  lemma VisibleExactly(ts: seq<Transaction>, f: Filters)
    ensures forall t :: t in Visible(ts, f) <==> t in ts && Matches(t, f)
    ensures Lists.IsSubsequence(Visible(ts, f), ts)
  {
    assert forall t :: MatchQuery(f)(t) == Matches(t, f);
    Lists.FilterIsSubsequence(ts, MatchQuery(f));
  }

  /** An empty search with both drop-downs on 'all' shows every transaction. */
  lemma NoFilterShowsAll(ts: seq<Transaction>)
    ensures Visible(ts, Filters("", All, All)) == ts
  {
    forall i | 0 <= i < |ts|
      ensures MatchQuery(Filters("", All, All))(ts[i])
    {
      Text.EmptySearchMatches(ts[i].description);
    }
    Lists.FilterKeepsAll(ts, MatchQuery(Filters("", All, All)));
  }

  /** The amount cell: a currency sign and the number shown (`None` for
      an `undefined` original amount). */
  datatype AmountLabel = AmountLabel(symbol: string, amount: Option<real>)

  /** Lira transactions show their original amount with '₺'; every other
      transaction shows the stored dollar amount with '$'. */
  function Display(t: Transaction): (r: AmountLabel)
    ensures r.symbol == "₺" <==> t.originalCurrency == Some(TRY)
    ensures r.symbol == "₺" ==> r.amount == t.originalAmount
    ensures r.symbol != "₺" ==> r.amount == Some(t.amount)
  {
    if t.originalCurrency == Some(TRY) then AmountLabel("₺", t.originalAmount)
    else AmountLabel("$", Some(t.amount))
  }

  class TransactionList {
    var transactions: seq<Transaction>
    var loading: bool
    var error: Option<string>

    constructor()
      ensures transactions == [] && loading && error == None
    {
      transactions := [];
      loading := true;
      error := None;
    }

    /** `loadTransactions`: without a user or on a failed read the error
        is set and the list kept; otherwise the list becomes the rows read
        (none when the read returns no data). Loading ends either way. */
    method Load(user: Option<string>, failed: bool, rows: Option<seq<Transaction>>)
      modifies this
      ensures !loading
      ensures error == if user.None? || failed then Some(LoadError) else None
      ensures transactions == if user.None? || failed then old(transactions) else rows.GetOr([])
    {
      error := None;
      if user.None? || failed {
        error := Some(LoadError);
      } else {
        transactions := rows.GetOr([]);
      }
      loading := false;
    }

    /** `handleAddTransaction`: the new transaction goes first. */
    method Add(t: Transaction)
      modifies this
      ensures transactions == [t] + old(transactions)
      ensures loading == old(loading) && error == old(error)
    {
      transactions := [t] + transactions;
    }

    /** `handleUpdateTransaction`. */
    method Update(u: Transaction)
      modifies this
      ensures transactions == Updated(old(transactions), u)
      ensures loading == old(loading) && error == old(error)
    {
      transactions := Updated(transactions, u);
    }

    /** `handleDeleteTransaction`. */
    method Delete(id: string)
      modifies this
      ensures transactions == Deleted(old(transactions), id)
      ensures loading == old(loading) && error == old(error)
    {
      transactions := Deleted(transactions, id);
    }
  }
}
