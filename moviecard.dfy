/** The movie card: what it shows is a pure function of one movie record. */
module MovieCard {
  import opened Wrappers
  import opened Movies
  import opened JsString

  const PosterBaseUrl := "https://image.tmdb.org/t/p/w500"
  const PlaceholderImage := "https://via.placeholder.com/500x750?text=No+Image"
  /** The route prefix of the details view (`/movie/:id`). */
  const DetailsPrefix := "/movie/"

  /** The "Release:" line: "N/A", or the year of the given date string. */
  datatype ReleaseLabel = ReleaseNA | ReleaseYearOf(date: string)

  /** The rating shown in brackets: "N/A", or the value to one decimal. */
  datatype RatingLabel = RatingNA | RatingOf(value: real)

  /** Everything a rendered card derives from its movie. */
  datatype Card = Card(
    image: string,
    alt: string,
    heading: string,
    release: ReleaseLabel,
    rating: RatingLabel,
    link: string
  )

  /** The image source: the poster on the image server, or the placeholder
      when the movie has no poster path. */
  function PosterUrl(posterPath: Option<string>): (r: string)
    ensures IsTruthyText(posterPath) ==>
      |r| == |PosterBaseUrl| + |posterPath.value| && r[..|PosterBaseUrl|] == PosterBaseUrl &&
      r[|PosterBaseUrl|..] == posterPath.value
    ensures r == PlaceholderImage <==> !IsTruthyText(posterPath)
  {
    if IsTruthyText(posterPath) then
      var r := PosterBaseUrl + posterPath.value;
      assert r[8] != PlaceholderImage[8];
      r
    else PlaceholderImage
  }

  function ReleaseFor(releaseDate: Option<string>): (r: ReleaseLabel)
    ensures r == ReleaseNA <==> !IsTruthyText(releaseDate)
    ensures r.ReleaseYearOf? ==> r.date == releaseDate.value
  {
    if IsTruthyText(releaseDate) then ReleaseYearOf(releaseDate.value) else ReleaseNA
  }

  /** The bracketed rating, read from the field `vote_avarage`. */
  function RatingFor(movie: Movie): (r: RatingLabel)
    ensures r == RatingNA <==> movie.voteAvarage.None? || movie.voteAvarage.value == 0.0
    ensures r.RatingOf? ==> r.value == movie.voteAvarage.value
  {
    match movie.voteAvarage
    case Some(v) => if v != 0.0 then RatingOf(v) else RatingNA
    case None => RatingNA
  }

  /** A record as the API delivers it carries `vote_average` and no
      `vote_avarage`, so its card shows "N/A" whatever its average is. */
  lemma {:induction false} ApiRecordRatesNA(movie: Movie, average: real)
    requires movie.voteAvarage.None?
    ensures RatingFor(movie.(voteAverage := Some(average))) == RatingNA
  {
  }

  /** The "View Details" link: `/movie/` followed by the decimal identifier. */
  function DetailsPath(id: int): (r: string)
    ensures |r| > |DetailsPrefix| && r[..|DetailsPrefix|] == DetailsPrefix
    ensures r[|DetailsPrefix|..] == DecimalString(id)
  {
    DetailsPrefix + DecimalString(id)
  }

  /** The match of `/movie/:id` for paths of the exact form the card's links
      take: the non-empty segment after the prefix, which contains no further
      slash. Trailing slashes, letter case and percent-decoding, which the
      router also handles, are not modelled. */
  function MatchDetailsRoute(path: string): (param: Option<string>)
    ensures param.Some? ==> path == DetailsPrefix + param.value && param.value != []
    ensures param.Some? ==> '/' !in param.value
  {
    if |path| > |DetailsPrefix| && path[..|DetailsPrefix|] == DetailsPrefix &&
       forall i :: |DetailsPrefix| <= i < |path| ==> path[i] != '/'
    then
      assert path == DetailsPrefix + path[|DetailsPrefix|..];
      Some(path[|DetailsPrefix|..])
    else None
  }

  /** Every path of the form `/movie/<segment>`, with a non-empty segment free
      of slashes, matches the route with that segment as its parameter. */
  lemma {:induction false} DetailsRouteMatches(seg: string)
    requires seg != [] && '/' !in seg
    ensures MatchDetailsRoute(DetailsPrefix + seg) == Some(seg)
  {
  }

  /** A card's link leads to the details route, whose parameter reads back
      as the movie's identifier. */
  lemma {:induction false} DetailsLinkRoundTrip(id: int)
    ensures MatchDetailsRoute(DetailsPath(id)).Some?
    ensures ParseDecimal(MatchDetailsRoute(DetailsPath(id)).value) == Some(id)
  {
    var p := DetailsPath(id);
    var d := DecimalString(id);
    assert forall i :: |DetailsPrefix| <= i < |p| ==> p[i] == d[i - |DetailsPrefix|];
    DecimalRoundTrip(id);
  }

  /** Different movies link to different paths. */
  lemma {:induction false} DetailsPathInjective(a: int, b: int)
    requires DetailsPath(a) == DetailsPath(b)
    ensures a == b
  {
    DetailsLinkRoundTrip(a);
    DetailsLinkRoundTrip(b);
  }

  /** The card, or `None` when it renders nothing: a missing movie, a falsy
      identifier (absent or 0) or a falsy title (absent or ""). */
  function Render(movie: Option<Movie>): (r: Option<Card>)
    ensures r.Some? <==> movie.Some? && IsTruthyInt(movie.value.id) && IsTruthyText(movie.value.title)
    ensures r.Some? ==> r.value.alt == r.value.heading == movie.value.title.value
    ensures r.Some? ==> r.value.image == PosterUrl(movie.value.posterPath)
    ensures r.Some? ==> r.value.release == ReleaseFor(movie.value.releaseDate)
    ensures r.Some? ==> r.value.rating == RatingFor(movie.value)
    ensures r.Some? ==> r.value.link == DetailsPath(movie.value.id.value)
  {
    match movie
    case None => None
    case Some(m) =>
      if !IsTruthyInt(m.id) || !IsTruthyText(m.title) then None
      else Some(Card(
        PosterUrl(m.posterPath),
        m.title.value,
        m.title.value,
        ReleaseFor(m.releaseDate),
        RatingFor(m),
        DetailsPath(m.id.value)))
  }
}
