/**
 * What a query ends with: the end of `main` (and of the web handler
 * `recommend`), which passes the list from `find_similar_movies` to
 * `get_movie_suggestions` whenever that list is non-empty.
 *
 * As written, a failure's one-message list is non-empty too, so it is walked
 * like a ranking: `movie[0]` of the message is its first character, no row
 * label of the table equals a character, and the title lookup raises. The
 * user sees the catch-all's generic error, never the message. `RunAsWritten`
 * models that; `Respond` is the evidently intended behaviour, which reports the
 * failure and otherwise agrees with the source.
 */
module Pipeline {
  import opened Wrappers
  import opened Movies
  import opened Ranking
  import opened Recommender

  /** What the user is shown at the end of one query. */
  datatype Shown =
    | Suggested(titles: seq<string>)
    | Reported(message: string)
    | NothingShown
    | UnexpectedError

  /**
   * `movies_data[movies_data.index == movie[0]]['title'].values[0]` for one list
   * element; `None` where it raises.
   */
  function LookupAsWritten(e: Entry, movies: seq<Movie>): Option<string> {
    match e
    case Pair(p) => if p.index < |movies| then Some(movies[p.index].title) else None
    case Note(_) => None
  }

  /**
   * The end of `main` as written: nothing for an empty list; the generic error
   * when any lookup in `get_movie_suggestions` raises (it looks every element
   * up, also those past the limit); the kept titles otherwise.
   */
  function RunAsWritten(o: Outcome, movies: seq<Movie>, limit: int): (r: Shown)
    ensures !r.Reported?
    ensures r == NothingShown <==> o == Ranked([])
    ensures r.Suggested? ==> o.Ranked? && Resolvable(o.pairs, movies) && |r.titles| == KeptCount(limit, |o.pairs|)
  {
    var entries := Returned(o);
    if |entries| == 0 then
      NothingShown
    else if exists k :: 0 <= k < |entries| && LookupAsWritten(entries[k], movies).None? then
      UnexpectedError
    else
      Suggested(seq(KeptCount(limit, |entries|), i requires 0 <= i < KeptCount(limit, |entries|) =>
        LookupAsWritten(entries[i], movies).value))
  }

  /** As written, every failure of `find_similar_movies` ends in the generic error, never in its message. */
  lemma FailuresNeverReportedAsWritten(o: Outcome, movies: seq<Movie>, limit: int)
    requires o.Failed?
    ensures RunAsWritten(o, movies, limit) == UnexpectedError
  {
  }

  /** Concretely: a query with no close match, on any table, matrix and limit, shows the generic error. */
  lemma NoMatchQueryEndsInErrorAsWritten(data: Dataset, similarity: seq<seq<Score>>, limit: int)
    ensures RunAsWritten(FindSimilarMovies([], data, similarity), data.movies, limit) == UnexpectedError
  {
    FailuresNeverReportedAsWritten(FindSimilarMovies([], data, similarity), data.movies, limit);
  }

  /**
   * The intended end of a query: a failure is reported with its message; an
   * empty ranking shows nothing; a ranking shows the titles of its first
   * `limit` columns.
   */
  function Respond(o: Outcome, movies: seq<Movie>, limit: int): (r: Shown)
    requires o.Ranked? ==> Resolvable(o.pairs, movies)
    ensures r.Reported? <==> o.Failed?
    ensures r == NothingShown <==> o == Ranked([])
    ensures !r.UnexpectedError?
    ensures r.Suggested? ==> |r.titles| == KeptCount(limit, |o.pairs|)
                             && forall i :: 0 <= i < |r.titles| ==> r.titles[i] == movies[o.pairs[i].index].title
  {
    match o
    case Failed(f) => Reported(Message(f))
    case Ranked(pairs) => if |pairs| == 0 then NothingShown else Suggested(Suggestions(pairs, movies, limit))
  }

  /**
   * `main` asks for `DefaultLimit` suggestions: when the title lookups succeed it
   * shows the titles of the first 30 ranked columns, in ranking order.
   */
  lemma MainShowsFirstThirtyTitles(o: Outcome, movies: seq<Movie>)
    requires o.Ranked? && Resolvable(o.pairs, movies) && |o.pairs| > 0
    ensures var s := RunAsWritten(o, movies, DefaultLimit);
            s.Suggested? && |s.titles| == if |o.pairs| < 30 then |o.pairs| else 30
    ensures var s := RunAsWritten(o, movies, DefaultLimit);
            forall i :: 0 <= i < |s.titles| ==> s.titles[i] == movies[o.pairs[i].index].title
  {
  }

  /** With the intended behaviour, a query with no close match is reported as such. */
  lemma NoMatchQueryIsReported(data: Dataset, similarity: seq<seq<Score>>, limit: int)
    ensures Respond(FindSimilarMovies([], data, similarity), data.movies, limit)
              == Reported("No close match found for the entered movie name.")
  {
  }

  /** On every ranking the source can look up, the intended behaviour is exactly the source's. */
  lemma RespondAgreesOnRankings(o: Outcome, movies: seq<Movie>, limit: int)
    requires o.Ranked? && Resolvable(o.pairs, movies)
    ensures Respond(o, movies, limit) == RunAsWritten(o, movies, limit)
  {
  }
}
