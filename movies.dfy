/**
 * The movie table and the two query-independent steps applied to it:
 * filling missing text cells with the empty string (`fillna('')`) and
 * joining the five selected text columns into one feature string per movie.
 */
module Movies {
  import opened Wrappers

  /** The five text columns the recommender selects, in its fixed order. */
  datatype Feature = Genres | Keywords | Tagline | Cast | Director

  const SelectedFeatures: seq<Feature> := [Genres, Keywords, Tagline, Cast, Director]

  /** One row of the table. A text cell is `None` where the CSV cell was empty (pandas NaN). */
  datatype Movie = Movie(
    index: int,
    title: string,
    genres: Option<string>,
    keywords: Option<string>,
    tagline: Option<string>,
    cast: Option<string>,
    director: Option<string>)

  /**
   * The loaded table: whether it has an `index` column at all, and its rows in
   * file order. The position of a row in `movies` is its pandas row label.
   */
  datatype Dataset = Dataset(hasIndexColumn: bool, movies: seq<Movie>)

  function Cell(m: Movie, f: Feature): Option<string> {
    match f
    case Genres => m.genres
    case Keywords => m.keywords
    case Tagline => m.tagline
    case Cast => m.cast
    case Director => m.director
  }

  function WithCell(m: Movie, f: Feature, v: Option<string>): (r: Movie)
    ensures Cell(r, f) == v
    ensures forall g :: g != f ==> Cell(r, g) == Cell(m, g)
    ensures r.index == m.index && r.title == m.title
  {
    match f
    case Genres => m.(genres := v)
    case Keywords => m.(keywords := v)
    case Tagline => m.(tagline := v)
    case Cast => m.(cast := v)
    case Director => m.(director := v)
  }

  /** The text of a cell after `fillna('')`. */
  function TextOrEmpty(v: Option<string>): string {
    match v
    case Some(s) => s
    case None => ""
  }

  /** `movies_data[f] = movies_data[f].fillna('')`: one column filled, every other cell kept. */
  function FillColumn(movies: seq<Movie>, f: Feature): (r: seq<Movie>)
    ensures |r| == |movies|
    ensures forall i :: 0 <= i < |r| ==> Cell(r[i], f) == Some(TextOrEmpty(Cell(movies[i], f)))
    ensures forall i, g :: 0 <= i < |r| && g != f ==> Cell(r[i], g) == Cell(movies[i], g)
    ensures forall i :: 0 <= i < |r| ==> r[i].index == movies[i].index && r[i].title == movies[i].title
  {
    seq(|movies|, i requires 0 <= i < |movies| => WithCell(movies[i], f, Some(TextOrEmpty(Cell(movies[i], f)))))
  }

  /**
   * The cleaning half of `load_and_clean_data`: the rows read from the CSV are
   * the parameter `rows`, and each feature in `features` is filled in turn.
   * Afterwards every selected cell holds a string (the old one, or "" where it
   * was missing); every other column is as read.
   */
  method CleanData(rows: seq<Movie>, features: seq<Feature>) returns (cleaned: seq<Movie>)
    ensures |cleaned| == |rows|
    ensures forall i :: 0 <= i < |rows| ==> cleaned[i].index == rows[i].index && cleaned[i].title == rows[i].title
    ensures forall i, f :: 0 <= i < |rows| && f in features ==> Cell(cleaned[i], f) == Some(TextOrEmpty(Cell(rows[i], f)))
    ensures forall i, f :: 0 <= i < |rows| && f !in features ==> Cell(cleaned[i], f) == Cell(rows[i], f)
  {
    cleaned := rows;
    for k := 0 to |features|
      invariant |cleaned| == |rows|
      invariant forall i :: 0 <= i < |rows| ==> cleaned[i].index == rows[i].index && cleaned[i].title == rows[i].title
      invariant forall i, f :: 0 <= i < |rows| && f in features[..k] ==> Cell(cleaned[i], f) == Some(TextOrEmpty(Cell(rows[i], f)))
      invariant forall i, f :: 0 <= i < |rows| && f !in features[..k] ==> Cell(cleaned[i], f) == Cell(rows[i], f)
    {
      assert features[..k + 1] == features[..k] + [features[k]];
      var next := FillColumn(cleaned, features[k]);
      forall i, f | 0 <= i < |rows| && f in features[..k + 1]
        ensures Cell(next[i], f) == Some(TextOrEmpty(Cell(rows[i], f)))
      {
        if f != features[k] {
          assert f in features[..k];
        } else if f in features[..k] {
          assert Cell(cleaned[i], f) == Some(TextOrEmpty(Cell(rows[i], f)));
        } else {
          assert Cell(cleaned[i], f) == Cell(rows[i], f);
        }
      }
      cleaned := next;
    }
    assert features[..|features|] == features;
  }

  /** Whether every selected text cell of a movie holds a string. */
  predicate Filled(m: Movie) {
    forall f :: f in SelectedFeatures ==> Cell(m, f).Some?
  }

  /** `a + b` on two pandas string cells: a missing operand makes the sum missing. */
  function Plus(a: Option<string>, b: Option<string>): Option<string> {
    if a.Some? && b.Some? then Some(a.value + b.value) else None
  }

  const Space: Option<string> := Some(" ")

  /**
   * The combined feature string of one movie, built exactly as the source adds
   * the columns: genres, keywords, tagline, cast, director, left to right, with
   * a single space between neighbours.
   */
  function CombinedFeatures(m: Movie): (r: Option<string>)
    ensures r.Some? <==> Filled(m)
  {
    assert Filled(m) <==> Cell(m, Genres).Some? && Cell(m, Keywords).Some? && Cell(m, Tagline).Some?
                          && Cell(m, Cast).Some? && Cell(m, Director).Some?;
    Plus(Plus(Plus(Plus(Plus(Plus(Plus(Plus(
      m.genres, Space), m.keywords), Space), m.tagline), Space), m.cast), Space), m.director)
  }

  /** The texts of the selected cells, in the fixed feature order (missing cells read as ""). */
  function SelectedTexts(m: Movie): (r: seq<string>)
    ensures |r| == |SelectedFeatures|
  {
    seq(|SelectedFeatures|, k requires 0 <= k < |SelectedFeatures| => TextOrEmpty(Cell(m, SelectedFeatures[k])))
  }

  /** Reference definition: the parts separated by exactly one space. */
  function Join(parts: seq<string>): string
    decreases |parts|
  {
    if |parts| == 0 then ""
    else if |parts| == 1 then parts[0]
    else parts[0] + " " + Join(parts[1..])
  }

  function Lengths(parts: seq<string>): (r: seq<nat>)
    ensures |r| == |parts|
  {
    seq(|parts|, k requires 0 <= k < |parts| => |parts[k]|)
  }

  /** Cuts a joined string back into parts of the given lengths, skipping one separator after each. */
  function Unjoin(s: string, lengths: seq<nat>): seq<string>
    decreases |lengths|
  {
    if |lengths| == 0 then []
    else if lengths[0] > |s| then [s]
    else [s[..lengths[0]]] + Unjoin(if lengths[0] < |s| then s[lengths[0] + 1..] else "", lengths[1..])
  }

  /** The join adds exactly one character per gap between parts. */
  lemma {:induction false} JoinLength(parts: seq<string>)
    requires |parts| > 0
    ensures |Join(parts)| == SumOfLengths(parts) + |parts| - 1
    decreases |parts|
  {
    if |parts| > 1 {
      JoinLength(parts[1..]);
    }
  }

  function SumOfLengths(parts: seq<string>): nat
    decreases |parts|
  {
    if |parts| == 0 then 0 else |parts[0]| + SumOfLengths(parts[1..])
  }

  /**
   * The separators sit exactly between the parts: knowing each part's length,
   * the parts are recovered from the joined string, in order.
   */
  lemma {:induction false} UnjoinJoin(parts: seq<string>)
    ensures Unjoin(Join(parts), Lengths(parts)) == parts
    decreases |parts|
  {
    if |parts| == 1 {
      var s := Join(parts);
      assert s[..|parts[0]|] == parts[0];
      assert Lengths(parts)[1..] == [];
      assert Unjoin(s, Lengths(parts)) == [parts[0]] + Unjoin("", []);
    } else if |parts| > 1 {
      var s := Join(parts);
      assert s == parts[0] + " " + Join(parts[1..]);
      assert s[..|parts[0]|] == parts[0];
      assert s[|parts[0]| + 1..] == Join(parts[1..]);
      assert Lengths(parts)[1..] == Lengths(parts[1..]);
      UnjoinJoin(parts[1..]);
    }
  }

  /**
   * The source's column sum is the space-join of the five selected cells in the
   * fixed order when every cell holds a string, and missing (null propagates)
   * as soon as one of them is missing.
   */
  lemma CombinedFeaturesIsJoin(m: Movie)
    ensures Filled(m) ==> CombinedFeatures(m) == Some(Join(SelectedTexts(m)))
    ensures !Filled(m) ==> CombinedFeatures(m) == None
  {
    var t := SelectedTexts(m);
    if Filled(m) {
      assert Cell(m, Genres).Some? && Cell(m, Keywords).Some? && Cell(m, Tagline).Some?;
      assert Cell(m, Cast).Some? && Cell(m, Director).Some?;
      var g, k, ta, c, d := m.genres.value, m.keywords.value, m.tagline.value, m.cast.value, m.director.value;
      assert t == [g, k, ta, c, d];
      assert Join(t[4..]) == d;
      assert Join(t[3..]) == c + " " + d;
      assert Join(t[2..]) == ta + " " + (c + " " + d);
      assert Join(t[1..]) == k + " " + (ta + " " + (c + " " + d));
      assert Join(t) == g + " " + (k + " " + (ta + " " + (c + " " + d)));
      assert CombinedFeatures(m) == Some((((((((g + " ") + k) + " ") + ta) + " ") + c) + " ") + d);
      assert g + " " + (k + " " + (ta + " " + (c + " " + d))) == (((((((g + " ") + k) + " ") + ta) + " ") + c) + " ") + d;
    } else {
      var f :| f in SelectedFeatures && Cell(m, f).None?;
    }
  }

  /**
   * After `load_and_clean_data` has filled the selected columns, every movie has
   * a combined feature string: the join of its cells, with "" for each cell that
   * was missing in the CSV.
   */
  lemma {:induction false} CleanedRowsCombine(rows: seq<Movie>, cleaned: seq<Movie>, i: nat)
    requires |cleaned| == |rows| && i < |rows|
    requires forall j, f :: 0 <= j < |rows| && f in SelectedFeatures ==> Cell(cleaned[j], f) == Some(TextOrEmpty(Cell(rows[j], f)))
    ensures CombinedFeatures(cleaned[i]) == Some(Join(SelectedTexts(rows[i])))
  {
    assert Filled(cleaned[i]);
    CombinedFeaturesIsJoin(cleaned[i]);
    forall k | 0 <= k < |SelectedFeatures|
      ensures SelectedTexts(cleaned[i])[k] == SelectedTexts(rows[i])[k]
    {
      assert SelectedFeatures[k] in SelectedFeatures;
    }
    assert SelectedTexts(cleaned[i]) == SelectedTexts(rows[i]);
  }

  /** A movie whose five selected cells are all blank combines to exactly four spaces. */
  lemma BlankMovieCombinesToFourSpaces(m: Movie)
    requires forall f :: f in SelectedFeatures ==> Cell(m, f) == Some("")
    ensures CombinedFeatures(m) == Some("    ")
  {
    assert Cell(m, Genres) == Some("") && Cell(m, Keywords) == Some("") && Cell(m, Tagline) == Some("");
    assert Cell(m, Cast) == Some("") && Cell(m, Director) == Some("");
    assert Filled(m);
    CombinedFeaturesIsJoin(m);
    var t := SelectedTexts(m);
    assert t == ["", "", "", "", ""];
    assert Join(t[3..]) == "" + " " + "" == " ";
    assert Join(t[2..]) == "" + " " + " " == "  ";
    assert Join(t[1..]) == "" + " " + "  " == "   ";
    assert Join(t) == "" + " " + "   " == "    ";
  }
}
