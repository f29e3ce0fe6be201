/** Option and the outcome of a remote (backend) call. A query either
    returns data or an error; the model takes that outcome as an input. */
module Wrappers {

  datatype Option<+T> = None | Some(value: T) {
    function GetOr(default: T): (r: T)
      ensures Some? ==> r == value
      ensures None? ==> r == default
    {
      match this
      case Some(v) => v
      case None => default
    }
  }

  /** The `{ data, error }` pair of a backend query: exactly one of them is set. */
  datatype Response<+T> = Ok(data: T) | Err(message: string)

  /** `if (error) return []; return data || [];` — a failed or empty list query
      yields the empty list. */
  function ListOrEmpty<T>(resp: Response<Option<seq<T>>>): (items: seq<T>)
    ensures resp.Err? ==> items == []
    ensures resp.Ok? && resp.data.None? ==> items == []
    ensures resp.Ok? && resp.data.Some? ==> items == resp.data.value
  {
    match resp
    case Err(_) => []
    case Ok(data) => data.GetOr([])
  }

  /** `if (error) return null; return data;` — a single-record query or write. */
  function RecordOrNull<T>(resp: Response<T>): (r: Option<T>)
    ensures r.None? <==> resp.Err?
    ensures r.Some? ==> r.value == resp.data
  {
    match resp
    case Err(_) => None
    case Ok(data) => Some(data)
  }

  /** `if (error) return false; return true;` — a write whose data is ignored. */
  function WriteSucceeded(error: Option<string>): (ok: bool)
    ensures ok <==> error.None?
  {
    error.None?
  }
}
