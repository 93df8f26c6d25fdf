# Movie recommender: query resolution and ranking, modelled in Dafny

The recommender suggests movies similar to a typed title. It reads a table of
movies, fills the missing text cells, and joins five text columns (genres,
keywords, tagline, cast, director) into one feature string per movie. Next it
computes a similarity matrix. For each query it then:

1. fuzzy-matches the title;
2. looks up the matched movie's `index` cell;
3. ranks that row of the matrix by score;
4. returns the titles at the first `limit` ranked columns.

This project models the deterministic parts of that pipeline and proves what
they promise:

- `wrappers.dfy`: `Option`, for a missing cell or a step that raises.
- `movies.dfy`, module `Movies`:
  - the movie row and the table;
  - the `fillna('')` loop of `load_and_clean_data`, as a method over the rows
    read from the CSV;
  - the combined feature string, built with pandas' null propagation.

  It relates the combined string to a reference space-join. That join is
  inverted by cutting at the field lengths.
- `ranking.dfy`, module `Ranking`: `sorted(enumerate(row), key=score,
  reverse=True)` as a stable insertion sort. It is proved to be a permutation
  of the enumerated row. The scores never increase, and equal scores keep
  ascending column order. Any sequence with these properties equals this one.
- `recommender.dfy`, module `Recommender`:
  - `find_similar_movies` after the fuzzy match, as a function returning
    either a ranking or a typed failure. The failure carries the source's
    exact message, and `Returned` gives the list the source really returns.
  - `get_movie_suggestions`, as a method with its loop.
- `pipeline.dfy`, module `Pipeline`: the end of `main`, as written and as
  evidently intended (see Findings).

The close-match list returned by `difflib.get_close_matches` is an input, and
so is the similarity matrix. Scores are `real` values that are only compared.
The matrix is arbitrary: it need not be square or symmetric, and its diagonal
need not be 1. A negative `index` cell is resolved the way numpy does: it
counts from the end of the matrix, and below minus the row count numpy's
IndexError is caught and becomes its message.

The model follows the code in three places where a reader might expect otherwise:

- failures are one-element message lists, not typed errors;
- the sort is Python's stable sort, so ties keep ascending column order;
- titles are looked up by pandas row label (the position in the table), not by
  the `index` column.

## Model

| member | source | states |
|---|---|---|
| Movies.FillColumn | recommender.py:12 | one column becomes filled (missing cells read "", present ones keep their text); every other column, the title and the index are unchanged |
| Movies.CleanData | recommender.py:11-12 | after filling each listed feature, every listed cell of every row holds a string (its old text, or "" where missing); unlisted cells, titles, indices and the row count are unchanged |
| Movies.CombinedFeatures | recommender.py:83-84 | the column sum is present exactly when all five selected cells hold strings (one missing cell makes it missing); `Movies.CombinedFeaturesIsJoin` states its value |
| Movies.CombinedFeaturesIsJoin | recommender.py:83-84 | the column sum is the single-space join of genres, keywords, tagline, cast, director in that order when all five cells hold strings, and missing as soon as one is missing |
| Movies.CleanedRowsCombine | recommender.py:11-12 | after cleaning with the five selected features, every row has a combined string: the join of its texts, with "" for each cell that was missing |
| Movies.BlankMovieCombinesToFourSpaces | recommender.py:83-84 | a row with all five cells blank combines to exactly four spaces |
| Movies.JoinLength | recommender.py:83-84 | the joined string is as long as the parts plus one separator per gap |
| Movies.UnjoinJoin | recommender.py:83-84 | cutting the joined string at the part lengths, skipping one separator each time, gives back the parts in order |
| Ranking.Insert | recommender.py:59 | inserting keeps every pair already there and adds exactly the new one (multisets) |
| Ranking.InsertKeepsRanked | recommender.py:59 | inserting, into a ranked sequence, a pair whose column is below all of its columns gives a ranked sequence: it goes ahead of the pairs of equal score |
| Ranking.SortByScoreDesc | recommender.py:59 | the sort is a permutation of its input |
| Ranking.SortRanks | recommender.py:59 | on input with ascending columns, the sort's output has non-increasing scores with ties in ascending column order (stable even though reversed) |
| Ranking.RankRowIsRankedPermutation | recommender.py:58-59 | the ranking of a row is a permutation of `enumerate(row)`, is ranked, and has as many pairs as the row has columns; each column appears exactly once, paired with its own score |
| Ranking.RankedHeadsAgree | recommender.py:59 | two ranked sequences of the same pairs start with the same pair |
| Ranking.RankedIsUnique | recommender.py:59 | two ranked sequences of the same pairs are equal, so the stable sort's result is fixed by the ranking order alone |
| Ranking.FirstRankedIsBest | recommender.py:58-59 | the first ranked pair has the row's highest score, at the lowest column that reaches it |
| Ranking.RankRow | recommender.py:58-59 | the ranking of a row is a permutation of `enumerate(row)` with non-increasing scores and ties in ascending column order; `Ranking.RankRowIsRankedPermutation` adds the per-column facts |
| Recommender.Matching | recommender.py:44 | the title filter keeps only rows of the table that have the title, and never more rows than the table has |
| Recommender.MatchingStartsAtFirst | recommender.py:44-52 | the title filter is empty exactly when no row has the title; its first row is the first row of the table with that title |
| Recommender.Message | recommender.py:36-62 | every failure message is non-empty (so `movie[0]` of it is a character), and the title-lookup message ends with the title it names |
| Recommender.Returned | recommender.py:36-62 | the returned list is empty exactly for an empty ranking; a failure returns a one-element list holding a message; a ranking returns its pairs in order |
| Recommender.RowPosition | recommender.py:58 | a row index accepted by numpy indexing (negative counts from the end) selects an existing row |
| Recommender.FindSimilarMovies | recommender.py:31-60 | a ranking is returned only when there is a candidate; it is ranked and is a permutation of the enumeration of some matrix row |
| Recommender.NoCandidatesMeansNoMatch | recommender.py:36-37 | the no-match failure happens exactly when the candidate list is empty; the list returned is then exactly ["No close match found for the entered movie name."] |
| Recommender.MissingIndexColumnFails | recommender.py:41-42 | the missing-`index`-column failure happens exactly when there is a candidate and the table has no `index` column |
| Recommender.UnknownTitleFails | recommender.py:44-46 | the title-lookup failure happens exactly when no row has the first candidate as its title, and it names that candidate |
| Recommender.IndexValuesCheckNeverFails | recommender.py:49-50 | the check for missing `index` values never fails once the earlier checks have passed |
| Recommender.FirstMatchDecides | recommender.py:52-59 | with the first candidate first found at row p, p's `index` cell decides the outcome: at or above the row count it is the out-of-bounds failure; below minus the row count it is numpy's IndexError; otherwise it is the ranking of that matrix row, a ranked permutation of its enumeration |
| Recommender.RankingsResolveWhenColumnsFit | recommender.py:58-69 | when no matrix row has more columns than the table has rows (so also for the 5-column matrix of recommender.py:24 over a table of five or more rows), every ranked column is a row position of the table |
| Recommender.GetMovieSuggestions | recommender.py:65-72 | returns min(limit, number of ranked pairs) titles (none when limit <= 0); the i-th is the title of the row at the i-th ranked column, so the ranking order is kept |
| Pipeline.FailuresNeverReportedAsWritten | recommender.py:90-100 | as written, every failure of the query step ends in the generic unexpected-error output instead of its message |
| Pipeline.NoMatchQueryEndsInErrorAsWritten | recommender.py:90-100 | as written, a query with no close match shows the generic error, for any table, matrix and limit |
| Pipeline.RunAsWritten | recommender.py:90-100 | as written, a message is never shown; nothing is shown exactly for an empty ranking; titles are shown only for a ranking whose every column is a row of the table, and then min(limit, pairs) of them |
| Pipeline.MainShowsFirstThirtyTitles | recommender.py:65-72 | with the default limit of 30 that `main` uses (recommender.py:94), a non-empty ranking whose columns are rows of the table shows the titles of its first min(30, pairs) columns, in ranking order |
| Pipeline.NoMatchQueryIsReported | recommender.py:90-94 | with the intended behaviour, a query with no close match shows "No close match found for the entered movie name." |
| Pipeline.Respond | recommender.py:90-98 | intended end of a query: a message is shown exactly for a failure, nothing exactly for an empty ranking, never the generic error; otherwise min(limit, pairs) titles, the i-th at the i-th ranked column |
| Pipeline.RespondAgreesOnRankings | recommender.py:90-98 | on every ranking whose columns are rows of the table, the intended behaviour shows exactly what the source shows |

## Findings

| source | as written | input that shows it | evidently intended | confidence | as-written member | corrected member |
|---|---|---|---|---|---|---|
| recommender.py:90-94 | A failure's one-message list is not empty, so it passes the emptiness test and goes to `get_movie_suggestions`. There `movie[0]` is the message's first character, which equals no row label, and the title lookup raises. `main` prints only "An unexpected error occurred: ..."; app.py:16-19 has the same flow and no handler. | a query whose close-match list is empty (candidates = []) | the failure's message is shown to the user | high (not executed) | Pipeline.NoMatchQueryEndsInErrorAsWritten | Pipeline.NoMatchQueryIsReported |

## Left out

- Reading the CSV and the `FileNotFoundError` and other exception paths of `load_and_clean_data` (recommender.py:9-19) are file I/O. The rows read are the input of `Movies.CleanData`.
- A selected column or the `title` column missing from the CSV (a pandas `KeyError`) is not modelled. Every `Movie` has all columns, and only the presence of the `index` column is a flag.
- `index` cells are integers. A non-numeric or NaN `index` cell is not modelled.
- `calculate_similarity` (recommender.py:21-29) is TF-IDF and cosine similarity over floating point, so the matrix is an input. As written it vectorises the five feature names instead of the combined strings (recommender.py:24), so the real matrix is 5-by-5. The bounds check then rejects every movie whose `index` is 5 or more; the model covers this through `Recommender.FirstMatchDecides` for any matrix.
- `difflib.get_close_matches` (recommender.py:34) is a library heuristic. Its result is the `candidates` input.
- Scores are `real` and only compared. Floating-point NaN scores, which do not form a total order under Python's sort, are not modelled.
- The catch-all `except` branches (recommender.py:61-62, 99-100) catch arbitrary runtime errors. They are modelled only for numpy's IndexError on a too-negative row index, and in `Pipeline.RunAsWritten` for the raising title lookup.
- `Recommender.GetMovieSuggestions`: the title lookup by pandas row label (recommender.py:69) is modelled as the row at that position, and a column with no such row is excluded by a precondition instead of modelled as a pandas `IndexError`. The precondition covers every ranked pair, because the loop looks each one up before testing the limit.
- Console `input`/`print` in `main` (recommender.py:74-103) and the Gradio interface in app.py are the user-interface shell. `Pipeline.Shown` stands for what is printed.
