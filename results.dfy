/** Outcomes of the scraping code: a value, or the Python exception that
    aborts the call. Only the exception kinds the modelled code can raise
    are distinguished. */
module Results {

  /** The exceptions the scraping code raises when markup is not as expected. */
  datatype PyError =
    | TypeError   // subscripting None (an element that was not found)
    | KeyError    // a missing attribute or dictionary key
    | IndexError  // `pop(0)` of an empty list, or an index past the end
    | ValueError  // `int()` of a string that is not an integer literal

  datatype Result<+T, +E> = Ok(value: T) | Err(error: E) {
    predicate IsFailure() { Err? }

    function PropagateFailure<U>(): Result<U, E>
      requires Err?
    {
      Err(error)
    }

    function Extract(): T
      requires Ok?
    {
      value
    }
  }

  datatype Option<+T> = None | Some(value: T)

  /** The attributes of one parsed HTML tag, by name. */
  type Attrs = map<string, string>

  /** `tag[name]` on a parsed tag: the attribute's value, or KeyError. */
  function Attr(tag: Attrs, name: string): (r: Result<string, PyError>)
    ensures r.Ok? <==> name in tag
    ensures r.Ok? ==> r.value == tag[name]
    ensures r.Err? ==> r.error == KeyError
  {
    if name in tag then Ok(tag[name]) else Err(KeyError)
  }
}
