/** The movie record that cards display and the favourites list stores. */
module Movies {
  import opened Wrappers

  /** A movie summary as the remote API delivers it. Every field may be absent.
      `voteAverage` is the API's `vote_average`; `voteAvarage` is the field
      `vote_avarage`, which the card reads under that spelling and which API
      records do not carry. Fields no modelled code reads are not represented. */
  datatype Movie = Movie(
    id: Option<int>,
    title: Option<string>,
    posterPath: Option<string>,
    releaseDate: Option<string>,
    voteAverage: Option<real>,
    voteAvarage: Option<real>
  )

  /** JavaScript truthiness of an optional string: present and not "". */
  predicate IsTruthyText(s: Option<string>)
  {
    s.Some? && s.value != ""
  }

  /** JavaScript truthiness of an optional number: present and not 0. */
  predicate IsTruthyInt(n: Option<int>)
  {
    n.Some? && n.value != 0
  }
}
