/**
 * The query side of the recommender: resolving the fuzzy-matched title to a row
 * of the similarity matrix and ranking that row (`find_similar_movies`), then
 * turning the ranking into titles (`get_movie_suggestions`).
 *
 * The close-match candidates (what `difflib.get_close_matches` returned) and the
 * similarity matrix (what the TF-IDF/cosine step produced) are inputs.
 */
module Recommender {
  import opened Wrappers
  import opened Movies
  import opened Ranking

  /** Why `find_similar_movies` returned a one-message list instead of a ranking. */
  datatype Failure =
    | NoCloseMatch
    | IndexColumnMissing
    | NoMovieWithTitle(title: string)
    | IndexValuesInvalid
    | IndexOutOfBounds
      /** numpy's IndexError for a row index below minus the row count, caught by the catch-all. */
    | RowLookupFailed(index: int, rows: nat)

  /** The exact message the source puts in the list for each failure. */
  function Message(f: Failure): (r: string)
    ensures |r| > 0
    ensures f.NoMovieWithTitle? ==> |f.title| <= |r| && r[|r| - |f.title|..] == f.title
  {
    match f
    case NoCloseMatch => "No close match found for the entered movie name."
    case IndexColumnMissing => "Error: 'index' column not found in the dataset."
    case NoMovieWithTitle(t) => "No movie found with title: " + t
    case IndexValuesInvalid => "Error: 'index' values are missing or invalid."
    case IndexOutOfBounds => "Error: Index is out of bounds for similarity calculation."
    case RowLookupFailed(i, n) =>
      "An error occurred while finding similar movies: index " + IntToDecimal(i)
      + " is out of bounds for axis 0 with size " + IntToDecimal(n)
  }

  function NatToDecimal(n: nat): string
    decreases n
  {
    if n < 10 then ["0123456789"[n]] else NatToDecimal(n / 10) + ["0123456789"[n % 10]]
  }

  function IntToDecimal(i: int): string {
    if i < 0 then "-" + NatToDecimal(-i) else NatToDecimal(i)
  }

  /** The result of `find_similar_movies`, with success and failure told apart. */
  datatype Outcome = Ranked(pairs: seq<Scored>) | Failed(failure: Failure)

  /** An element of the Python list `find_similar_movies` returns: a ranked pair, or a message string. */
  datatype Entry = Pair(pair: Scored) | Note(text: string)

  /** The list the source actually returns: the ranked pairs, or a one-element list holding the message. */
  function Returned(o: Outcome): (r: seq<Entry>)
    ensures |r| == 0 <==> o == Ranked([])
    ensures o.Failed? ==> |r| == 1 && r[0].Note?
    ensures o.Ranked? ==> |r| == |o.pairs| && forall k :: 0 <= k < |r| ==> r[k].Pair? && r[k].pair == o.pairs[k]
  {
    match o
    case Ranked(pairs) => seq(|pairs|, k requires 0 <= k < |pairs| => Pair(pairs[k]))
    case Failed(f) => [Note(Message(f))]
  }

  /** `movies_data[movies_data.title == title]`: the rows with that title, in table order. */
  function Matching(movies: seq<Movie>, title: string): (r: seq<Movie>)
    ensures |r| <= |movies|
    ensures forall k :: 0 <= k < |r| ==> r[k].title == title && r[k] in movies
    decreases |movies|
  {
    if |movies| == 0 then []
    else (if movies[0].title == title then [movies[0]] else []) + Matching(movies[1..], title)
  }

  /** `p` is the position of the first row titled `title`. */
  predicate IsFirstWithTitle(movies: seq<Movie>, title: string, p: int) {
    0 <= p < |movies| && movies[p].title == title && forall q :: 0 <= q < p ==> movies[q].title != title
  }

  /**
   * The filtered table is empty exactly when no row has the title, and its first
   * row (`.iloc[0]`) is the first row of the table that has it.
   */
  lemma {:induction false} MatchingStartsAtFirst(movies: seq<Movie>, title: string)
    ensures |Matching(movies, title)| == 0 <==> forall q :: 0 <= q < |movies| ==> movies[q].title != title
    ensures forall p :: IsFirstWithTitle(movies, title, p) ==>
              |Matching(movies, title)| > 0 && Matching(movies, title)[0] == movies[p]
    decreases |movies|
  {
    if |movies| > 0 {
      MatchingStartsAtFirst(movies[1..], title);
      if movies[0].title != title {
        forall p | IsFirstWithTitle(movies, title, p)
          ensures |Matching(movies, title)| > 0 && Matching(movies, title)[0] == movies[p]
        {
          assert IsFirstWithTitle(movies[1..], title, p - 1);
        }
        if forall q :: 0 <= q < |movies[1..]| ==> movies[1..][q].title != title {
          forall q | 0 <= q < |movies| ensures movies[q].title != title {
            if q > 0 {
              assert movies[q] == movies[1..][q - 1];
            }
          }
        }
      }
    }
  }

  /** numpy row indexing: a negative index counts from the end of the matrix. */
  function RowPosition(index: int, rows: nat): (p: nat)
    requires -(rows as int) <= index < rows
    ensures p < rows
  {
    if index >= 0 then index else rows + index
  }

  /**
   * `find_similar_movies` after the fuzzy match: `candidates` is the close-match
   * list, `similarity` the matrix. The first candidate is the matched title; the
   * `index` cell of the first row with that title picks the matrix row, and that
   * row is ranked. Each failed check yields its message instead.
   */
  function FindSimilarMovies(candidates: seq<string>, data: Dataset, similarity: seq<seq<Score>>): (r: Outcome)
    ensures r.Ranked? ==> |candidates| > 0 && IsRanked(r.pairs)
    ensures r.Ranked? ==> exists i :: 0 <= i < |similarity| && multiset(r.pairs) == multiset(Enumerate(similarity[i]))
  {
    if |candidates| == 0 then
      Failed(NoCloseMatch)
    else
      var closeMatch := candidates[0];
      if !data.hasIndexColumn then
        Failed(IndexColumnMissing)
      else
        var matching := Matching(data.movies, closeMatch);
        if |matching| == 0 then
          Failed(NoMovieWithTitle(closeMatch))
        else if !data.hasIndexColumn || |matching| == 0 then
          Failed(IndexValuesInvalid)
        else
          var index := matching[0].index;
          if index >= |similarity| then
            Failed(IndexOutOfBounds)
          else if index < -|similarity| then
            Failed(RowLookupFailed(index, |similarity|))
          else
            var row := RowPosition(index, |similarity|);
            RankRowIsRankedPermutation(similarity[row]);
            Ranked(RankRow(similarity[row]))
  }

  /**
   * An empty candidate list, and only that, gives the no-match failure, and the
   * list returned is exactly the one no-match message.
   */
  lemma NoCandidatesMeansNoMatch(candidates: seq<string>, data: Dataset, similarity: seq<seq<Score>>)
    ensures FindSimilarMovies(candidates, data, similarity) == Failed(NoCloseMatch) <==> |candidates| == 0
    ensures |candidates| == 0 ==>
              Returned(FindSimilarMovies(candidates, data, similarity)) == [Note("No close match found for the entered movie name.")]
  {
  }

  /** A table without an `index` column fails with its message as soon as there is a candidate, and only then. */
  lemma MissingIndexColumnFails(candidates: seq<string>, data: Dataset, similarity: seq<seq<Score>>)
    ensures (FindSimilarMovies(candidates, data, similarity) == Failed(IndexColumnMissing))
        <==> (|candidates| > 0 && !data.hasIndexColumn)
  {
  }

  /**
   * The title-lookup failure happens exactly when no row carries the first
   * candidate, and it names that candidate. Since `difflib` draws its candidates
   * from the table's own titles, it never happens in the source's use.
   */
  lemma UnknownTitleFails(candidates: seq<string>, data: Dataset, similarity: seq<seq<Score>>)
    ensures var r := FindSimilarMovies(candidates, data, similarity);
            (r.Failed? && r.failure.NoMovieWithTitle?)
            <==> (|candidates| > 0 && data.hasIndexColumn &&
                  forall q :: 0 <= q < |data.movies| ==> data.movies[q].title != candidates[0])
    ensures var r := FindSimilarMovies(candidates, data, similarity);
            r.Failed? && r.failure.NoMovieWithTitle? ==> r.failure.title == candidates[0]
  {
    if |candidates| > 0 {
      MatchingStartsAtFirst(data.movies, candidates[0]);
    }
  }

  /** The check that the matching rows have `index` values can never fail once the earlier checks passed. */
  lemma IndexValuesCheckNeverFails(candidates: seq<string>, data: Dataset, similarity: seq<seq<Score>>)
    ensures FindSimilarMovies(candidates, data, similarity) != Failed(IndexValuesInvalid)
  {
  }

  /**
   * Once the first candidate is found at row `p` of a table with an `index`
   * column, that row's `index` cell alone decides the outcome: at or above the
   * row count it is the out-of-bounds message, below minus the row count it is
   * numpy's IndexError message, and otherwise the result is the ranking of
   * matrix row `index` (counted from the end when negative): a permutation of
   * its enumerated pairs, by non-increasing score, ties by ascending column.
   */
  lemma FirstMatchDecides(candidates: seq<string>, data: Dataset, similarity: seq<seq<Score>>, p: nat)
    requires |candidates| > 0 && data.hasIndexColumn
    requires IsFirstWithTitle(data.movies, candidates[0], p)
    ensures var r := FindSimilarMovies(candidates, data, similarity);
            var index := data.movies[p].index;
            && (r == Failed(IndexOutOfBounds) <==> index >= |similarity|)
            && (r == Failed(RowLookupFailed(index, |similarity|)) <==> index < -|similarity|)
            && (r.Ranked? <==> -|similarity| <= index < |similarity|)
    ensures var r := FindSimilarMovies(candidates, data, similarity);
            var index := data.movies[p].index;
            r.Ranked? ==>
              && -|similarity| <= index < |similarity|
              && var row := similarity[RowPosition(index, |similarity|)];
                 && multiset(r.pairs) == multiset(Enumerate(row))
                 && IsRanked(r.pairs)
  {
    MatchingStartsAtFirst(data.movies, candidates[0]);
  }

  /**
   * When no matrix row has more columns than the table has rows (an N-by-N
   * matrix for N movies, or the 5-column matrix the source builds over a table
   * of at least five rows), every column of a ranking is a row position of the
   * table, so `get_movie_suggestions` can look each one up.
   */
  lemma RankingsResolveWhenColumnsFit(candidates: seq<string>, data: Dataset, similarity: seq<seq<Score>>)
    requires forall i :: 0 <= i < |similarity| ==> |similarity[i]| <= |data.movies|
    ensures var r := FindSimilarMovies(candidates, data, similarity);
            r.Ranked? ==> Resolvable(r.pairs, data.movies)
  {
    var r := FindSimilarMovies(candidates, data, similarity);
    if r.Ranked? {
      var i :| 0 <= i < |similarity| && multiset(r.pairs) == multiset(Enumerate(similarity[i]));
      forall k | 0 <= k < |r.pairs| ensures r.pairs[k].index < |data.movies| {
        assert r.pairs[k] in multiset(Enumerate(similarity[i]));
      }
    }
  }

  /** `get_movie_suggestions`' default limit. */
  const DefaultLimit: int := 30

  /** Every ranked column names a row of the table: the lookup by row label succeeds for each. */
  predicate Resolvable(ranked: seq<Scored>, movies: seq<Movie>) {
    forall k :: 0 <= k < |ranked| ==> ranked[k].index < |movies|
  }

  /** How many entries pass the `i < limit` test. */
  function KeptCount(limit: int, n: nat): nat {
    if limit <= 0 then 0 else if limit < n then limit else n
  }

  /** The titles `get_movie_suggestions` returns, as a value. */
  function Suggestions(ranked: seq<Scored>, movies: seq<Movie>, limit: int): seq<string>
    requires Resolvable(ranked, movies)
  {
    seq(KeptCount(limit, |ranked|), i requires 0 <= i < KeptCount(limit, |ranked|) => movies[ranked[i].index].title)
  }

  /**
   * `get_movie_suggestions`: walks the whole ranking, looks every column up as
   * a row position of the table, and appends the title while the position in the
   * ranking is below `limit`. It returns min(limit, |ranked|) titles (none for a
   * limit of zero or less), the i-th being the title at the i-th ranked column.
   */
  method GetMovieSuggestions(ranked: seq<Scored>, movies: seq<Movie>, limit: int) returns (suggestions: seq<string>)
    requires Resolvable(ranked, movies)
    ensures |suggestions| == if limit <= 0 then 0 else if limit < |ranked| then limit else |ranked|
    ensures forall i :: 0 <= i < |suggestions| ==> suggestions[i] == movies[ranked[i].index].title
    ensures suggestions == Suggestions(ranked, movies, limit)
  {
    suggestions := [];
    for i := 0 to |ranked|
      invariant |suggestions| == KeptCount(limit, i)
      invariant forall k :: 0 <= k < |suggestions| ==> suggestions[k] == movies[ranked[k].index].title
    {
      var index := ranked[i].index;
      var titleFromIndex := movies[index].title;
      if i < limit {
        suggestions := suggestions + [titleFromIndex];
      }
    }
  }
}
