/** The search bar: a held query string edited raw, and a submit handler that
    passes the trimmed query on only when it is not blank. */
module Search {
  import opened Wrappers
  import opened JsString

  /** The guard of the submit handler: the argument `onSearch` receives for
      `query`, or `None` when it is not called. It is called exactly when the
      query holds a character that is not white space, with the query stripped
      of white space at both ends (`Trim` states what is cut off). */
  function Submitted(query: string): (searched: Option<string>)
    ensures searched.Some? <==> exists i :: 0 <= i < |query| && !IsWhiteSpace(query[i])
    ensures searched.Some? ==> searched.value == Trim(query)
    ensures searched.Some? ==> searched.value != "" && IsTrimmed(searched.value)
  {
    if Trim(query) != "" then Some(Trim(query)) else None
  }

  /** What is passed to `onSearch` passes the guard unchanged: submitting it
      again would search for the same text. */
  lemma {:induction false} SubmittedIsStable(query: string)
    requires Submitted(query).Some?
    ensures Submitted(Submitted(query).value) == Submitted(query)
  {
    TrimIdempotent(query);
  }

  class SearchBar {
    /** The `query` state slot, bound to the text field. */
    var query: string

    constructor ()
      ensures query == ""
    {
      query := "";
    }

    /** `handleInputChange`: the field's raw value becomes the query, with no
        trimming. */
    method HandleInputChange(value: string)
      modifies this
      ensures query == value
    {
      query := value;
    }

    /** `handleSubmit`: calls `onSearch` with `Submitted(query)` when that is
        present, and leaves the held query as it was. */
    method HandleSubmit() returns (searched: Option<string>)
      ensures searched == Submitted(query)
    {
      searched := Submitted(query);
    }
  }
}
