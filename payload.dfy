/**
 * What the REST collaborator hands back to the components, reduced to the
 * shapes their code distinguishes, and the two normalisations they apply.
 */
module Payload {
  import opened Wrappers

  /**
   * The JSON body `res.data` of a list request: a bare array, an object whose
   * named field (`messages`, `contacts` or `requests`) holds an array or is
   * missing, `null`, or another falsy value (the empty string of an empty
   * response, `false`, `0`).
   */
  datatype Body<T> = Array(items: seq<T>) | Object(field: Option<seq<T>>) | Null | Falsy

  /** The value of `res.data.field || res.data || []`: an array, or the whole object. */
  datatype Stored<T> = List(items: seq<T>) | Whole(body: Body<T>)

  /**
   * `res.data.field || res.data || []` as the code evaluates it. `None` is the
   * TypeError thrown when `res.data` is null (reading a property of null). The
   * final `[]` is reached only by the other falsy bodies; an object without
   * the field is stored whole, since an object is truthy.
   */
  function Unwrap<T>(b: Body<T>): (r: Option<Stored<T>>)
    ensures r == None <==> b.Null?
    ensures b.Array? ==> r == Some(List(b.items))
    ensures b.Object? && b.field.Some? ==> r == Some(List(b.field.value))
    ensures b.Object? && b.field.None? ==> r == Some(Whole(b))
    ensures b.Falsy? ==> r == Some(List([]))
  {
    match b
    case Array(xs) => Some(List(xs))
    case Object(Some(xs)) => Some(List(xs))
    case Object(None) => Some(Whole(b))
    case Null => None
    case Falsy => Some(List([]))
  }

  /**
   * The normalisation the fallback chain is written for: the array, the
   * field's array, or the empty list. `None` is still the TypeError on null.
   */
  function ListOrEmpty<T>(b: Body<T>): (r: Option<seq<T>>)
    ensures r == None <==> b.Null?
    ensures r.Some? && Unwrap(b).value.List? ==> r.value == Unwrap(b).value.items
    ensures r.Some? && Unwrap(b).value.Whole? ==> r.value == []
  {
    match b
    case Array(xs) => Some(xs)
    case Object(Some(xs)) => Some(xs)
    case Object(None) => Some([])
    case Null => None
    case Falsy => Some([])
  }

  /** The as-written chain stores a non-list for the body `{}`, where an empty list is meant. */
  lemma ObjectWithoutFieldIsStoredWhole<T>()
    ensures Unwrap<T>(Object(None)) == Some(Whole(Object(None)))
    ensures ListOrEmpty<T>(Object(None)) == Some([])
  {
  }

  /** Both framings of one list, bare and nested, normalise to the same list. */
  lemma FramingsAgree<T>(xs: seq<T>)
    ensures ListOrEmpty(Array(xs)) == ListOrEmpty(Object(Some(xs))) == Some(xs)
    ensures Unwrap(Array(xs)) == Unwrap(Object(Some(xs))) == Some(List(xs))
  {
  }

  /** Outcome of a request whose response body is not used: accepted, or rejected with `err.response.data.message`. */
  datatype Ack = Accepted | Refused(serverMessage: Option<string>)

  /** Outcome of a request whose body is used. */
  datatype Reply<T> = Ok(data: T) | Failed(serverMessage: Option<string>)

  /** `err.response?.data?.message || fallback`: the server's text unless it is missing or empty. */
  function ErrorText(serverMessage: Option<string>, fallback: string): (r: string)
    ensures serverMessage.Some? && serverMessage.value != "" ==> r == serverMessage.value
    ensures serverMessage.None? || serverMessage.value == "" ==> r == fallback
    ensures fallback != "" ==> r != ""
  {
    if serverMessage.Some? && serverMessage.value != "" then serverMessage.value else fallback
  }
}
