/** The generic read hook: rows, a busy flag and an error message,
    driven by one query per change of its dependencies. The query's reply
    is an input. */
module SupabaseQuery {
  import opened Wrappers
  import Supabase

  /** The query's reply: the rows (`None` is `null`), or the error it
      returned or threw. */
  datatype Reply<T> = Done(result: Option<seq<T>>) | Failed(err: Supabase.ErrorValue)

  /** The rows and the error after a reply: rows replace the data (`null`
      counts as none) and clear the error; a failure keeps the data and
      shows `handleSupabaseError`'s message. */
  function Settle<T>(data: seq<T>, reply: Reply<T>): (r: (seq<T>, Option<string>))
    ensures reply.Done? ==> r.0 == reply.result.GetOr([]) && r.1 == None
    ensures reply.Failed? ==> r.0 == data && r.1 == Some(Supabase.HandleError(reply.err))
  {
    match reply
    case Done(result) => (result.GetOr([]), None)
    case Failed(err) => (data, Some(Supabase.HandleError(err)))
  }

  /** An error is shown exactly when the query failed, and its message is
      empty only for an `Error` thrown with an empty message (which the
      page then does not show). */
  lemma ErrorShownOnFailure<T>(data: seq<T>, reply: Reply<T>)
    ensures Settle(data, reply).1.Some? <==> reply.Failed?
    ensures Settle(data, reply).1 == Some("") <==> reply == Failed(Supabase.Thrown(""))
  {
    if reply.Failed? {
      Supabase.HandleErrorEmpty(reply.err);
    }
  }

  /** The rows depend only on the last successful reply: a failure after a
      success leaves that success's rows. */
  lemma LastSuccessWins<T>(data: seq<T>, ok: Option<seq<T>>, err: Supabase.ErrorValue)
    ensures Settle(Settle(data, Done(ok)).0, Failed(err)).0 == ok.GetOr([])
    ensures Settle(Settle(data, Failed(err)).0, Done(ok)) == (ok.GetOr([]), None)
  {
  }

  class Query<T> {
    var data: seq<T>
    var loading: bool
    var error: Option<string>

    /** No rows, loading, no error. */
    constructor()
      ensures data == [] && loading && error == None
    {
      data := [];
      loading := true;
      error := None;
    }

    /** `loadData`: the error is cleared and loading set, then the reply
        settles the rows and the error, and loading ends. */
    method Load(reply: Reply<T>)
      modifies this
      ensures (data, error) == Settle(old(data), reply)
      ensures !loading
    {
      error := None;
      loading := true;
      match reply {
        case Done(result) =>
          data := result.GetOr([]);
        case Failed(err) =>
          error := Some(Supabase.HandleError(err));
      }
      loading := false;
    }
  }
}
