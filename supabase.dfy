/** The client helpers in `src/lib/supabase.ts`: the configuration check,
    the mapping from a thrown value to a user-facing message and the
    retry helper with exponential back-off. The remote call is an input:
    `request(i)` is the outcome of the `i`-th call. */
module Supabase {
  import opened Wrappers
  import Text

  /** `Boolean(supabaseUrl && supabaseAnonKey)`: a missing or empty
      variable is falsy. */
  function IsConfigured(url: Option<string>, key: Option<string>): (ok: bool)
    ensures ok <==> url.Some? && url.value != "" && key.Some? && key.value != ""
  {
    match (url, key)
    case (Some(u), Some(k)) => u != "" && k != ""
    case _ => false
  }

  /** What can be thrown or returned as an error. An object carrying a
      `code` (a database error, or an `Error` with a code) is `Coded`; an
      `Error` without one is `Thrown`; `Falsy` stands for `null`,
      `undefined`, `0` and `false`. */
  datatype ErrorValue =
    | Falsy
    | Coded(code: string, message: string)
    | Thrown(message: string)
    | Str(text: string)
    | OtherValue

  const UnknownError := "An unknown error occurred"
  const GenericRequestError := "An error occurred while processing your request."
  const NetworkError := "Network error. Please check your connection and try again."
  const UnexpectedError := "An unexpected error occurred. Please try again."

  /** The fixed table of database error codes. */
  function CodeMessage(code: string): (m: Option<string>)
    ensures m.Some? ==> m.value != ""
  {
    if code == "23505" then Some("This record already exists.")
    else if code == "23503" then Some("This operation cannot be completed due to related records.")
    else if code == "42P01" then Some("The requested resource is not available.")
    else if code == "42501" then Some("You do not have permission to perform this action.")
    else if code == "PGRST301" then Some("Access denied. Please check your permissions.")
    else if code == "PGRST116" then Some("Record not found.")
    else if code == "23502" then Some("Please fill in all required fields.")
    else None
  }

  /** `handleSupabaseError`. */
  function HandleError(e: ErrorValue): (m: string)
    ensures e.Falsy? || e == Str("") ==> m == UnknownError
    ensures e.Coded? && CodeMessage(e.code).Some? ==> m == CodeMessage(e.code).value
    ensures e.Coded? && CodeMessage(e.code).None? ==> m == (if e.message != "" then e.message else GenericRequestError)
    ensures e.Thrown? ==> m == (if Text.Includes(e.message, "Failed to fetch") then NetworkError else e.message)
    ensures e.Str? && e.text != "" ==> m == e.text
    ensures e.OtherValue? ==> m == UnexpectedError
  {
    match e
    case Falsy => UnknownError
    case Coded(code, message) =>
      (match CodeMessage(code)
       case Some(known) => known
       case None => if message != "" then message else GenericRequestError)
    case Thrown(message) =>
      if Text.Includes(message, "Failed to fetch") then NetworkError else message
    case Str(text) => if text == "" then UnknownError else text
    case OtherValue => UnexpectedError
  }

  /** The only way to get an empty message is an `Error` with an empty message. */
  lemma HandleErrorEmpty(e: ErrorValue)
    ensures HandleError(e) == "" <==> e == Thrown("")
  {
    if e == Thrown("") {
      assert !Text.Includes("", "Failed to fetch");
    }
  }

  /** A known code decides the message whatever the accompanying text. */
  lemma KnownCodeIgnoresMessage(code: string, m1: string, m2: string)
    requires CodeMessage(code).Some?
    ensures HandleError(Coded(code, m1)) == HandleError(Coded(code, m2))
  {
  }

  function Pow2(n: nat): (p: nat)
    ensures p >= 1
  {
    if n == 0 then 1 else 2 * Pow2(n - 1)
  }

  /** The outcome of one call of the retried request. */
  datatype Attempt<T, E> = Ok(value: T) | Err(error: E)

  /** `retryRequest(request, maxRetries)`. It answers the first success, or
      fails with the last error (`None` for `undefined` when no call is
      made); `calls` is the number of calls made and `delays` the waits
      between them in milliseconds. */
  method RetryRequest<T, E>(request: nat -> Attempt<T, E>, maxRetries: int)
    returns (r: Result<T, Option<E>>, calls: nat, delays: seq<nat>)
    ensures calls <= (if maxRetries > 0 then maxRetries else 0)
    ensures forall i :: 0 <= i < calls - 1 ==> request(i).Err?
    ensures r.Success? <==> calls > 0 && request(calls - 1).Ok?
    ensures r.Success? ==> r.value == request(calls - 1).value
    ensures r.Failure? ==> calls == (if maxRetries > 0 then maxRetries else 0)
    ensures r.Failure? ==> r.error == (if calls == 0 then None else Some(request(calls - 1).error))
    ensures |delays| == (if calls == 0 then 0 else calls - 1)
    ensures forall i :: 0 <= i < |delays| ==> delays[i] == Pow2(i) * 1000
  {
    var lastError: Option<E> := None;
    delays := [];
    calls := 0;
    var i := 0;
    while i < maxRetries
      invariant 0 <= i <= (if maxRetries > 0 then maxRetries else 0)
      invariant calls == i
      invariant forall j :: 0 <= j < i ==> request(j).Err?
      invariant lastError == (if i == 0 then None else Some(request(i - 1).error))
      invariant |delays| == (if i == 0 then 0 else if i < maxRetries then i else i - 1)
      invariant forall j :: 0 <= j < |delays| ==> delays[j] == Pow2(j) * 1000
    {
      calls := calls + 1;
      match request(i)
      case Ok(v) =>
        return Success(v), calls, delays;
      case Err(e) =>
        lastError := Some(e);
        if i < maxRetries - 1 {
          delays := delays + [Pow2(i) * 1000];
        }
      i := i + 1;
    }
    r := Failure(lastError);
  }
}
