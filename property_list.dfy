/** The owner's property table: the properties matching the search and
    the type drop-down, each with its rate shown in the chosen currency,
    and the guarded delete. The delete request and the confirmation
    dialog are inputs. */
module PropertyList {
  import opened Wrappers
  import opened Entities
  import Lists
  import Text
  import Constants

  /** `property.name?.toLowerCase().includes(term)`: a missing field
      never matches. */
  predicate FieldMatches(field: Option<string>, term: string) {
    field.Some? && Text.MatchesSearch(field.value, term)
  }

  /** Name or address search and type ('all' or equal). */
  predicate Matches(p: Property, term: string, kind: Choice<string>) {
    (FieldMatches(p.name, term) || FieldMatches(p.address, term)) && kind.Admits(p.propertyType)
  }

  function MatchQuery(term: string, kind: Choice<string>): Property -> bool {
    (p: Property) => Matches(p, term, kind)
  }

  /** `filteredProperties`. */
  function Visible(properties: seq<Property>, term: string, kind: Choice<string>): seq<Property> {
    Lists.Filter(properties, MatchQuery(term, kind))
  }

  /** The table lists exactly the matching properties, in order; with an
      empty search, exactly those of the type that have a name or an
      address. */
  lemma VisibleExactly(properties: seq<Property>, term: string, kind: Choice<string>)
    ensures forall p :: p in Visible(properties, term, kind) <==> p in properties && Matches(p, term, kind)
    ensures Lists.IsSubsequence(Visible(properties, term, kind), properties)
    ensures term == "" ==> forall p :: p in Visible(properties, term, kind) <==>
      p in properties && (p.name.Some? || p.address.Some?) && kind.Admits(p.propertyType)
  {
    assert forall p :: MatchQuery(term, kind)(p) == Matches(p, term, kind);
    Lists.FilterIsSubsequence(properties, MatchQuery(term, kind));
    if term == "" {
      forall p: Property
        ensures Matches(p, term, kind) <==> (p.name.Some? || p.address.Some?) && kind.Admits(p.propertyType)
      {
        if p.name.Some? { Text.EmptySearchMatches(p.name.value); }
        if p.address.Some? { Text.EmptySearchMatches(p.address.value); }
      }
    }
  }

  /** `original_amount || monthly_rate`: the original amount unless it is
      missing or 0. */
  function SourceRate(p: Property): (a: Option<real>)
    ensures p.originalAmount.Some? && p.originalAmount.value != 0.0 ==> a == p.originalAmount
    ensures p.originalAmount.None? || p.originalAmount == Some(0.0) ==> a == p.monthlyRate
  {
    if p.originalAmount.Some? && p.originalAmount.value != 0.0 then p.originalAmount else p.monthlyRate
  }

  /** The rate cell: the source rate in its original currency (dollars
      when none is recorded) converted to the chosen currency. */
  function RateShown(p: Property, currency: Currency): Constants.Display {
    Constants.FormatCurrency(SourceRate(p), p.originalCurrency.GetOr(USD), currency)
  }

  /** A property entered in lira and shown in lira displays the amount
      entered, whatever dollar rate was stored for it. */
  lemma EnteredAmountShown(p: Property, cents: int)
    requires p.originalCurrency == Some(TRY) && p.originalAmount == Some(cents as real / 100.0) && cents != 0
    ensures RateShown(p, TRY) == Constants.Display(Constants.Sign(TRY), cents)
  {
    Constants.FormatWholeCents(cents, TRY);
  }

  /** What `handleDelete` does: whether the delete is sent, whether the
      parent is told, whether the failure alert is shown. */
  datatype DeleteEffects = DeleteEffects(deleteSent: bool, notified: Option<string>, alerted: bool)

  /** `handleDelete(id)`: nothing happens unless the user confirms; the
      parent hears of the deletion only when the delete succeeded and a
      callback was given; a failure is alerted. */
  function HandleDelete(id: string, confirmed: bool, failed: bool, hasCallback: bool): (r: DeleteEffects)
    ensures !confirmed ==> r == DeleteEffects(false, None, false)
    ensures r.notified.Some? <==> confirmed && !failed && hasCallback
    ensures r.notified.Some? ==> r.notified.value == id
    ensures r.alerted <==> confirmed && failed
    ensures r.deleteSent <==> confirmed
  {
    if !confirmed then DeleteEffects(false, None, false)
    else if failed then DeleteEffects(true, None, true)
    else DeleteEffects(true, if hasCallback then Some(id) else None, false)
  }
}
