/** The leads page: the lead list, kept current by the initial read, by
    the realtime change feed of the `leads` table and by the add and edit
    dialogs, and a search-and-status view of it. The rows read and the
    change payloads are inputs. */
module Leads {
  import opened Wrappers
  import opened Entities
  import Lists
  import Text

  const NoUserError := "No authenticated user found"
  const LoadError := "Failed to load leads. Please try again later."

  /** A `leads` row as the database returns it (snake_case columns; `None`
      for a null or missing value). */
  datatype LeadRow = LeadRow(
    id: string,
    name: string,
    email: string,
    phone: Option<string>,
    status: LeadStatus,
    source: Option<string>,
    notes: Option<string>,
    assigned_to: Option<string>,
    property_id: Option<string>,
    created_at: Option<string>,
    updated_at: Option<string>)

  /** `transformLeadData`: the columns under their camelCase names, with a
      missing phone shown as ''. */
  function Transform(row: LeadRow): (lead: Lead)
    ensures lead.id == row.id && lead.name == row.name && lead.email == row.email
    ensures lead.phone.Some?
  {
    Lead(row.id, row.name, row.email, Some(row.phone.GetOr("")), row.status, row.source, row.notes,
         row.assigned_to, row.property_id, row.created_at, row.updated_at)
  }

  /** The row a lead would be stored as: the inverse of the renaming. */
  function RowOf(lead: Lead): LeadRow {
    LeadRow(lead.id, lead.name, lead.email, lead.phone, lead.status, lead.source, lead.notes,
            lead.assignedTo, lead.propertyId, lead.createdAt, lead.updatedAt)
  }

  /** The transformation loses nothing but the difference between a
      missing phone and an empty one. */
  lemma TransformRoundTrip(row: LeadRow)
    ensures RowOf(Transform(row)) == row <==> row.phone.Some?
    ensures RowOf(Transform(row)) == row.(phone := Some(row.phone.GetOr("")))
  {
  }

  /** The transformed rows, in order (`data.map(transformLeadData)`). */
  function TransformAll(rows: seq<LeadRow>): (r: seq<Lead>)
    ensures |r| == |rows| && forall i :: 0 <= i < |rows| ==> r[i] == Transform(rows[i])
  {
    seq(|rows|, i requires 0 <= i < |rows| => Transform(rows[i]))
  }

  function SameId(id: string): Lead -> bool {
    (l: Lead) => l.id == id
  }

  /** `current.map(lead => lead.id === updated.id ? updated : lead)`. */
  function Updated(leads: seq<Lead>, u: Lead): (r: seq<Lead>)
    ensures |r| == |leads|
    ensures forall i :: 0 <= i < |leads| ==> r[i].id == leads[i].id
    ensures forall i :: 0 <= i < |leads| ==> r[i] == if leads[i].id == u.id then u else leads[i]
  {
    Lists.ReplaceWhere(leads, SameId(u.id), u)
  }

  /** Applying the same update twice is applying it once. */
  lemma UpdateIdempotent(leads: seq<Lead>, u: Lead)
    ensures Updated(Updated(leads, u), u) == Updated(leads, u)
  {
    Lists.ReplaceWhereIdempotent(leads, SameId(u.id), u);
  }

  /** The realtime event kinds; `payload.new` is the changed row. */
  datatype ChangeKind = Insert | Update | Delete
  datatype Change = Change(kind: ChangeKind, row: LeadRow)

  /** The search box and the status drop-down. */
  datatype Filters = Filters(search: string, status: Choice<LeadStatus>)

  /** A case-insensitive match on the name, the e-mail or the phone
      (a missing phone searched as ''), and the status. */
  predicate Matches(lead: Lead, f: Filters) {
    && (Text.MatchesSearch(lead.name, f.search) || Text.MatchesSearch(lead.email, f.search)
        || Text.MatchesSearch(lead.phone.GetOr(""), f.search))
    && f.status.Admits(lead.status)
  }

  function MatchQuery(f: Filters): Lead -> bool {
    (l: Lead) => Matches(l, f)
  }

  /** `filteredLeads`. */
  function Visible(leads: seq<Lead>, f: Filters): seq<Lead> {
    Lists.Filter(leads, MatchQuery(f))
  }

  /** The view shows exactly the matching leads, in list order. */
  lemma VisibleExactly(leads: seq<Lead>, f: Filters)
    ensures forall l :: l in Visible(leads, f) <==> l in leads && Matches(l, f)
    ensures Lists.IsSubsequence(Visible(leads, f), leads)
  {
    assert forall l :: MatchQuery(f)(l) == Matches(l, f);
    Lists.FilterIsSubsequence(leads, MatchQuery(f));
  }

  /** An empty search with status 'all' shows every lead. */
  lemma NoFilterShowsAll(leads: seq<Lead>)
    ensures Visible(leads, Filters("", All)) == leads
  {
    forall i | 0 <= i < |leads|
      ensures MatchQuery(Filters("", All))(leads[i])
    {
      Text.EmptySearchMatches(leads[i].name);
    }
    Lists.FilterKeepsAll(leads, MatchQuery(Filters("", All)));
  }

  class LeadList {
    var leads: seq<Lead>
    var loading: bool
    var error: Option<string>

    constructor()
      ensures leads == [] && loading && error == None
    {
      leads := [];
      loading := true;
      error := None;
    }

    /** `loadLeads`: without a user the error says so; a failed read sets
        the load error; a read that returns data replaces the list with
        the transformed rows, and one that returns no data keeps it.
        Loading ends in every case. */
    method Load(user: Option<string>, failed: bool, rows: Option<seq<LeadRow>>)
      modifies this
      ensures !loading
      ensures error == if user.None? then Some(NoUserError) else if failed then Some(LoadError) else None
      ensures leads == if user.Some? && !failed && rows.Some? then TransformAll(rows.value) else old(leads)
    {
      error := None;
      if user.None? {
        error := Some(NoUserError);
        loading := false;
        return;
      }
      if failed {
        error := Some(LoadError);
      } else if rows.Some? {
        leads := TransformAll(rows.value);
      }
      loading := false;
    }

    /** The realtime handler: an insert puts the new lead first, an update
        replaces the lead with its id, any other event changes nothing. */
    method OnChange(change: Change)
      modifies this
      ensures change.kind == Insert ==> leads == [Transform(change.row)] + old(leads)
      ensures change.kind == Update ==> leads == Updated(old(leads), Transform(change.row))
      ensures change.kind == Delete ==> leads == old(leads)
      ensures loading == old(loading) && error == old(error)
    {
      match change.kind {
        case Insert => leads := [Transform(change.row)] + leads;
        case Update => leads := Updated(leads, Transform(change.row));
        case Delete =>
      }
    }

    /** `handleAddLead`: the new lead goes first. */
    method Add(lead: Lead)
      modifies this
      ensures leads == [lead] + old(leads)
      ensures loading == old(loading) && error == old(error)
    {
      leads := [lead] + leads;
    }

    /** `handleUpdateLead`. */
    method UpdateLead(lead: Lead)
      modifies this
      ensures leads == Updated(old(leads), lead)
      ensures loading == old(loading) && error == old(error)
    {
      leads := Updated(leads, lead);
    }
  }

  /** A realtime update for a lead not in the list changes nothing. */
  lemma UpdateOfUnknownLead(leads: seq<Lead>, u: Lead)
    requires forall i :: 0 <= i < |leads| ==> leads[i].id != u.id
    ensures Updated(leads, u) == leads
  {
  }
}
