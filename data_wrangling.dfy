/** The table operations that reconcile a freshly scraped playlist with the
    stored table. A data frame is a sequence of rows; renaming columns is the
    identity on rows. */
module DataWrangling {
  import opened Wrappers
  import opened LetterboxdScraping

  /** A row of the stored table and of the final table:
      id, rating, title, year, director, actors, countries. */
  datatype Row = Row(id: int, rating: int, title: string, year: Field<int>, director: Field<string>,
                     actors: Field<string>, countries: Field<string>)

  /** A row of the ratings table: id and rating. */
  datatype RatingRow = RatingRow(id: int, rating: int)

  predicate NoDuplicates(s: seq<int>) {
    forall i, j :: 0 <= i < j < |s| ==> s[i] != s[j]
  }

  /** The `id` column of each kind of table. The stored table, the ratings
      table and the film table have different row types, and Dafny has no
      field access shared across datatypes, so each has its own function. */
  function RowIds(df: seq<Row>): (r: seq<int>)
    ensures |r| == |df| && forall i :: 0 <= i < |df| ==> r[i] == df[i].id
  {
    seq(|df|, i requires 0 <= i < |df| => df[i].id)
  }

  function RatingIds(df: seq<RatingRow>): (r: seq<int>)
    ensures |r| == |df| && forall i :: 0 <= i < |df| ==> r[i] == df[i].id
  {
    seq(|df|, i requires 0 <= i < |df| => df[i].id)
  }

  function FilmIds(df: seq<FilmRecord>): (r: seq<int>)
    ensures |r| == |df| && forall i :: 0 <= i < |df| ==> r[i] == df[i].id
  {
    seq(|df|, i requires 0 <= i < |df| => df[i].id)
  }

  /* ---------------------------------------------------------------------
     Ids of the stored table
     --------------------------------------------------------------------- */

  /** The position of the first `x` in `s`. */
  function FirstIndex(s: seq<int>, x: int): (k: nat)
    requires x in s
    ensures k < |s| && s[k] == x
    ensures forall p :: 0 <= p < k ==> s[p] != x
  {
    if s[0] == x then 0 else 1 + FirstIndex(s[1..], x)
  }

  lemma FirstIndexOfPrefix(s: seq<int>, n: nat, x: int)
    requires n <= |s| && x in s[..n]
    ensures FirstIndex(s, x) == FirstIndex(s[..n], x)
  {
    var k := FirstIndex(s[..n], x);
    assert s[k] == x;
  }

  /** `current_df["id"].unique()`: every id of the column once, in the order of
      first appearance. */
  function GetFilmIdsInCurrentDf(currentDf: seq<Row>): (r: seq<int>)
    ensures NoDuplicates(r)
    ensures forall x :: x in r <==> x in RowIds(currentDf)
    ensures forall i, j :: 0 <= i < j < |r| ==> FirstIndex(RowIds(currentDf), r[i]) < FirstIndex(RowIds(currentDf), r[j])
  {
    Unique(RowIds(currentDf))
  }

  function Unique(s: seq<int>): (r: seq<int>)
    ensures NoDuplicates(r)
    ensures forall x :: x in r <==> x in s
    ensures forall i, j :: 0 <= i < j < |r| ==> FirstIndex(s, r[i]) < FirstIndex(s, r[j])
  {
    if |s| == 0 then []
    else
      var prefix := s[..|s| - 1];
      var u := Unique(prefix);
      UniqueFirstIndices(s, u);
      if s[|s| - 1] in u then u else u + [s[|s| - 1]]
  }

  lemma UniqueFirstIndices(s: seq<int>, u: seq<int>)
    requires |s| > 0
    requires forall x :: x in u <==> x in s[..|s| - 1]
    ensures forall x :: x in u ==> FirstIndex(s, x) == FirstIndex(s[..|s| - 1], x)
    ensures s[|s| - 1] !in u ==> FirstIndex(s, s[|s| - 1]) == |s| - 1
  {
    forall x | x in u ensures FirstIndex(s, x) == FirstIndex(s[..|s| - 1], x) {
      FirstIndexOfPrefix(s, |s| - 1, x);
    }
    if s[|s| - 1] !in u {
      FirstIndexOfNewLast(s);
    }
  }

  /** An element not in the prefix first occurs at the end. */
  lemma FirstIndexOfNewLast(s: seq<int>)
    requires |s| > 0 && s[|s| - 1] !in s[..|s| - 1]
    ensures FirstIndex(s, s[|s| - 1]) == |s| - 1
  {
    var last := s[|s| - 1];
    forall p | 0 <= p < |s| - 1 ensures s[p] != last {
      assert s[p] == s[..|s| - 1][p];
    }
  }

  /* ---------------------------------------------------------------------
     New records
     --------------------------------------------------------------------- */

  /** Python's `zip(ids, urls)`: pairs up to the shorter length. */
  function Zip(ids: seq<int>, urls: seq<string>): (r: seq<(int, string)>)
    ensures |r| == if |ids| < |urls| then |ids| else |urls|
    ensures forall i :: 0 <= i < |r| ==> r[i] == (ids[i], urls[i])
  {
    var n := if |ids| < |urls| then |ids| else |urls|;
    seq(n, i requires 0 <= i < n => (ids[i], urls[i]))
  }

  /** The URLs, in order, of the pairs whose id is not known: at most one per
      pair, each carried by some pair. */
  function UnknownUrls(pairs: seq<(int, string)>, known: seq<int>): (r: seq<string>)
    ensures |r| <= |pairs|
    ensures forall u :: u in r ==> exists i :: 0 <= i < |pairs| && pairs[i].1 == u
  {
    if |pairs| == 0 then []
    else
      var last := pairs[|pairs| - 1];
      UnknownUrls(pairs[..|pairs| - 1], known) + (if last.0 in known then [] else [last.1])
  }

  /** The URLs of the listed films whose id the stored table does not have,
      in listing order. */
  method GetNewRecords(currentFilmIds: seq<int>, idsRatingsUrls: IdsRatingsUrls) returns (newEntries: seq<string>)
    ensures newEntries == UnknownUrls(Zip(idsRatingsUrls.ids, idsRatingsUrls.urls), currentFilmIds)
  {
    newEntries := [];
    var pairs := Zip(idsRatingsUrls.ids, idsRatingsUrls.urls);
    for k := 0 to |pairs|
      invariant newEntries == UnknownUrls(pairs[..k], currentFilmIds)
    {
      var (filmId, url) := pairs[k];
      assert pairs[..k + 1][..k] == pairs[..k];
      if filmId !in currentFilmIds {
        newEntries := newEntries + [url];
      }
    }
    assert pairs[..|pairs|] == pairs;
  }

  /** A URL is new exactly when some pair carries it with an unknown id. */
  lemma {:induction false} UnknownUrlsMembers(pairs: seq<(int, string)>, known: seq<int>, url: string)
    ensures url in UnknownUrls(pairs, known) <==>
              exists i :: 0 <= i < |pairs| && pairs[i].0 !in known && pairs[i].1 == url
  {
    if |pairs| > 0 {
      var prefix := pairs[..|pairs| - 1];
      UnknownUrlsMembers(prefix, known, url);
      if exists i :: 0 <= i < |pairs| && pairs[i].0 !in known && pairs[i].1 == url {
        var i :| 0 <= i < |pairs| && pairs[i].0 !in known && pairs[i].1 == url;
        if i < |pairs| - 1 {
          assert prefix[i] == pairs[i];
        }
      }
      if url in UnknownUrls(prefix, known) {
        var i :| 0 <= i < |prefix| && prefix[i].0 !in known && prefix[i].1 == url;
        assert pairs[i] == prefix[i];
      }
    }
  }

  /** With no known id every zipped URL is new. */
  lemma {:induction false} UnknownUrlsNoneKnown(pairs: seq<(int, string)>)
    ensures UnknownUrls(pairs, []) == seq(|pairs|, i requires 0 <= i < |pairs| => pairs[i].1)
  {
    if |pairs| > 0 {
      UnknownUrlsNoneKnown(pairs[..|pairs| - 1]);
    }
  }

  /** When every id is known there is nothing new. */
  lemma {:induction false} UnknownUrlsAllKnown(pairs: seq<(int, string)>, known: seq<int>)
    requires forall i :: 0 <= i < |pairs| ==> pairs[i].0 in known
    ensures UnknownUrls(pairs, known) == []
  {
    if |pairs| > 0 {
      UnknownUrlsAllKnown(pairs[..|pairs| - 1], known);
    }
  }

  /** Against an empty stored table every listed URL of the zipped prefix is
      new; against one that knows every listed id none is. */
  lemma NewRecordsBounds(ids: seq<int>, urls: seq<string>, known: seq<int>)
    ensures var n := if |ids| < |urls| then |ids| else |urls|;
            UnknownUrls(Zip(ids, urls), []) == urls[..n]
    ensures (forall id :: id in ids ==> id in known) ==> UnknownUrls(Zip(ids, urls), known) == []
  {
    UnknownUrlsNoneKnown(Zip(ids, urls));
    if forall id :: id in ids ==> id in known {
      UnknownUrlsAllKnown(Zip(ids, urls), known);
    }
  }

  /* ---------------------------------------------------------------------
     Building the tables
     --------------------------------------------------------------------- */

  /** The ratings table of a listing: one row per listed film, in listing
      order, with its id and rating; the URL is dropped. Lists of different
      lengths raise ValueError. */
  function GetRatingsDataframe(idsRatingsUrls: IdsRatingsUrls): (r: Result<seq<RatingRow>, PyException>)
    ensures r.Success? <==> |idsRatingsUrls.ids| == |idsRatingsUrls.ratings| == |idsRatingsUrls.urls|
    ensures r.Failure? ==> r.error == ValueError
    ensures r.Success? ==> RatingIds(r.value) == idsRatingsUrls.ids
    ensures r.Success? ==> forall i :: 0 <= i < |r.value| ==> r.value[i].rating == idsRatingsUrls.ratings[i]
  {
    var d := idsRatingsUrls;
    if |d.ids| == |d.ratings| == |d.urls| then
      Success(seq(|d.ids|, i requires 0 <= i < |d.ids| => RatingRow(d.ids[i], d.ratings[i])))
    else
      Failure(ValueError)
  }

  /** The film-data table: row `i` gathers entry `i` of the six lists. Lists of
      different lengths raise ValueError. */
  function GetFilmDataDataframe(data: FilmData): (r: Result<seq<FilmRecord>, PyException>)
    ensures r.Success? <==> (|data.filmIds| == |data.titles| == |data.years| == |data.directors|
                             == |data.actors| == |data.countries|)
    ensures r.Failure? ==> r.error == ValueError
    ensures r.Success? ==> DescribesFilms(data, r.value)
  {
    var n := |data.filmIds|;
    if |data.titles| == |data.years| == |data.directors| == |data.actors| == |data.countries| == n then
      Success(seq(n, i requires 0 <= i < n =>
        FilmRecord(data.filmIds[i], data.titles[i], data.years[i], data.directors[i], data.actors[i], data.countries[i])))
    else
      Failure(ValueError)
  }

  /** The scraped lists of some film records turn back into those records. */
  lemma FilmDataRoundTrip(data: FilmData, records: seq<FilmRecord>)
    requires DescribesFilms(data, records)
    ensures GetFilmDataDataframe(data) == Success(records)
  {
    assert GetFilmDataDataframe(data).Success?;
    var r := GetFilmDataDataframe(data).value;
    assert |r| == |records|;
    forall i | 0 <= i < |r| ensures r[i] == records[i] {
      assert r[i].id == records[i].id && r[i].title == records[i].title && r[i].year == records[i].year;
      assert r[i].director == records[i].director && r[i].actors == records[i].actors;
      assert r[i].countries == records[i].countries;
    }
    assert r == records;
  }

  /** Puts a rating back onto a film record. */
  function WithRating(film: FilmRecord, rating: int): Row {
    Row(film.id, rating, film.title, film.year, film.director, film.actors, film.countries)
  }

  /** The stored table without its rating column: same rows in the same order,
      each of which gives the original row back once its rating is restored. */
  function GetAllColumnsExceptRatings(currentDf: seq<Row>): (r: seq<FilmRecord>)
    ensures |r| == |currentDf|
    ensures forall i :: 0 <= i < |r| ==> WithRating(r[i], currentDf[i].rating) == currentDf[i]
    ensures FilmIds(r) == RowIds(currentDf)
  {
    seq(|currentDf|, i requires 0 <= i < |currentDf| =>
      var row := currentDf[i];
      FilmRecord(row.id, row.title, row.year, row.director, row.actors, row.countries))
  }

  /** The stored rows followed by the new rows. */
  function AppendNewRecords(currentDfNoRatings: seq<FilmRecord>, newRecords: seq<FilmRecord>): (r: seq<FilmRecord>)
    ensures |r| == |currentDfNoRatings| + |newRecords|
    ensures r[..|currentDfNoRatings|] == currentDfNoRatings && r[|currentDfNoRatings|..] == newRecords
    ensures FilmIds(r) == FilmIds(currentDfNoRatings) + FilmIds(newRecords)
  {
    currentDfNoRatings + newRecords
  }

  /* ---------------------------------------------------------------------
     Inner join on id
     --------------------------------------------------------------------- */

  /** A ratings row joined with a film row: the rating from the former, every
      other column from the latter. */
  function Merge(left: RatingRow, right: FilmRecord): Row {
    WithRating(right, left.rating)
  }

  /** The joined rows of one ratings row, in the film table's order. */
  function MatchesOf(left: RatingRow, right: seq<FilmRecord>): (r: seq<Row>)
    ensures forall x :: x in r ==> exists j :: 0 <= j < |right| && right[j].id == left.id && x == Merge(left, right[j])
    ensures forall j :: 0 <= j < |right| && right[j].id == left.id ==> Merge(left, right[j]) in r
  {
    if |right| == 0 then []
    else (if right[0].id == left.id then [Merge(left, right[0])] else []) + MatchesOf(left, right[1..])
  }

  /** The inner join on id, in the order of the ratings table. Every joined row
      merges a ratings row and a film row of the same id, and every such pair
      is joined. */
  function InnerJoin(left: seq<RatingRow>, right: seq<FilmRecord>): (r: seq<Row>)
    ensures forall x :: x in r ==> exists i, j :: 0 <= i < |left| && 0 <= j < |right| && left[i].id == right[j].id
                                                 && x == Merge(left[i], right[j])
    ensures forall i, j :: 0 <= i < |left| && 0 <= j < |right| && left[i].id == right[j].id
                           ==> Merge(left[i], right[j]) in r
  {
    if |left| == 0 then []
    else
      var r := MatchesOf(left[0], right) + InnerJoin(left[1..], right);
      assert forall x :: x in r ==> exists i, j :: 0 <= i < |left| && 0 <= j < |right| && left[i].id == right[j].id
                                                   && x == Merge(left[i], right[j]) by {
        forall x | x in r
          ensures exists i, j :: 0 <= i < |left| && 0 <= j < |right| && left[i].id == right[j].id
                                 && x == Merge(left[i], right[j])
        {
          if x in MatchesOf(left[0], right) {
            var j :| 0 <= j < |right| && right[j].id == left[0].id && x == Merge(left[0], right[j]);
          } else {
            var i, j :| 0 <= i < |left| - 1 && 0 <= j < |right| && left[1..][i].id == right[j].id
                        && x == Merge(left[1..][i], right[j]);
            assert left[i + 1] == left[1..][i];
          }
        }
      }
      r
  }

  /** The ids of `ids` that also occur in `keep`, in the order of `ids`. */
  function KeepIn(ids: seq<int>, keep: seq<int>): (r: seq<int>)
    ensures forall x :: x in r <==> x in ids && x in keep
    ensures NoDuplicates(ids) ==> NoDuplicates(r)
  {
    if |ids| == 0 then []
    else
      var rest := KeepIn(ids[1..], keep);
      assert NoDuplicates(ids) ==> ids[0] !in ids[1..];
      (if ids[0] in keep then [ids[0]] else []) + rest
  }

  lemma RowIdsAppend(a: seq<Row>, b: seq<Row>)
    ensures RowIds(a + b) == RowIds(a) + RowIds(b)
  {
  }

  lemma MatchesOfUnique(left: RatingRow, right: seq<FilmRecord>)
    requires NoDuplicates(FilmIds(right))
    ensures RowIds(MatchesOf(left, right)) == if left.id in FilmIds(right) then [left.id] else []
  {
    var m := MatchesOf(left, right);
    MatchesOfStrict(left, right);
    if |m| == 1 {
      assert m[0] in m;
      var j :| 0 <= j < |right| && right[j].id == left.id && m[0] == Merge(left, right[j]);
      assert FilmIds(right)[j] == left.id;
    }
  }

  lemma NoMatchWithoutId(left: RatingRow, right: seq<FilmRecord>)
    requires left.id !in FilmIds(right)
    ensures MatchesOf(left, right) == []
  {
  }

  /** With unique film ids, a ratings row is joined at most once. */
  lemma {:induction false} MatchesOfStrict(left: RatingRow, right: seq<FilmRecord>)
    requires NoDuplicates(FilmIds(right))
    ensures |MatchesOf(left, right)| <= 1
  {
    if |right| > 0 {
      assert NoDuplicates(FilmIds(right[1..])) by {
        assert forall i :: 0 <= i < |right| - 1 ==> FilmIds(right[1..])[i] == FilmIds(right)[i + 1];
      }
      MatchesOfStrict(left, right[1..]);
      if right[0].id == left.id {
        assert left.id !in FilmIds(right[1..]) by {
          assert forall i :: 0 <= i < |right| - 1 ==> FilmIds(right[1..])[i] == FilmIds(right)[i + 1];
        }
        NoMatchWithoutId(left, right[1..]);
      }
    }
  }

  /** With unique film ids, the joined ids are the ratings ids that the film
      table also has, in ratings order. */
  lemma {:induction false} JoinIdsKeepRatingsOrder(left: seq<RatingRow>, right: seq<FilmRecord>)
    requires NoDuplicates(FilmIds(right))
    ensures RowIds(InnerJoin(left, right)) == KeepIn(RatingIds(left), FilmIds(right))
  {
    if |left| > 0 {
      MatchesOfUnique(left[0], right);
      JoinIdsKeepRatingsOrder(left[1..], right);
      RowIdsAppend(MatchesOf(left[0], right), InnerJoin(left[1..], right));
      assert RatingIds(left)[1..] == RatingIds(left[1..]);
    }
  }

  /** When both tables have unique ids, so does the join, and its ids are
      exactly those the two tables share. */
  lemma JoinIdsUnique(left: seq<RatingRow>, right: seq<FilmRecord>)
    requires NoDuplicates(RatingIds(left)) && NoDuplicates(FilmIds(right))
    ensures NoDuplicates(RowIds(InnerJoin(left, right)))
    ensures forall x :: x in RowIds(InnerJoin(left, right)) <==> x in RatingIds(left) && x in FilmIds(right)
  {
    JoinIdsKeepRatingsOrder(left, right);
  }

  /* ---------------------------------------------------------------------
     Sorting by year, then title
     --------------------------------------------------------------------- */

  /** Strictly earlier year; a missing year (NaN) sorts after every year. */
  predicate YearBefore(a: Field<int>, b: Field<int>) {
    match (a, b)
    case (Present(x), Present(y)) => x < y
    case (Present(_), Missing) => true
    case (Missing, _) => false
  }

  /** Python's `<=` on strings: lexicographic by code point. */
  predicate TitleLe(a: string, b: string) {
    |a| == 0 || (|b| > 0 && (a[0] < b[0] || (a[0] == b[0] && TitleLe(a[1..], b[1..]))))
  }

  lemma {:induction false} TitleLeTotal(a: string, b: string)
    ensures TitleLe(a, b) || TitleLe(b, a)
  {
    if |a| > 0 && |b| > 0 && a[0] == b[0] {
      TitleLeTotal(a[1..], b[1..]);
    }
  }

  /** Row `a` may come before row `b`: an earlier year, or the same year (both
      missing included) and a title that is not greater. */
  predicate RowLe(a: Row, b: Row) {
    YearBefore(a.year, b.year) || (a.year == b.year && TitleLe(a.title, b.title))
  }

  lemma RowLeTotal(a: Row, b: Row)
    ensures RowLe(a, b) || RowLe(b, a)
  {
    TitleLeTotal(a.title, b.title);
  }

  predicate SortedByYearAndTitle(s: seq<Row>) {
    forall i :: 0 <= i < |s| - 1 ==> RowLe(s[i], s[i + 1])
  }

  /** The rows after the first of a sorted table are sorted, and the first may precede the second. */
  lemma SortedTail(s: seq<Row>)
    requires |s| > 0 && SortedByYearAndTitle(s)
    ensures SortedByYearAndTitle(s[1..])
    ensures |s| > 1 ==> RowLe(s[0], s[1])
  {
    forall i | 0 <= i < |s| - 2 ensures RowLe(s[1..][i], s[1..][i + 1]) {
      assert s[1..][i] == s[i + 1] && s[1..][i + 1] == s[i + 2];
    }
  }

  /** A row that may precede the first row of a sorted table can go in front of it. */
  lemma SortedCons(x: Row, s: seq<Row>)
    requires SortedByYearAndTitle(s) && (|s| > 0 ==> RowLe(x, s[0]))
    ensures SortedByYearAndTitle([x] + s)
  {
    forall i | 0 <= i < |s| ensures RowLe(([x] + s)[i], ([x] + s)[i + 1]) {
      if i > 0 {
        assert ([x] + s)[i] == s[i - 1] && ([x] + s)[i + 1] == s[i];
      }
    }
  }

  /** Inserts a row before the first row it may precede. */
  function Insert(x: Row, s: seq<Row>): (r: seq<Row>)
    requires SortedByYearAndTitle(s)
    ensures SortedByYearAndTitle(r)
    ensures multiset(r) == multiset(s) + multiset{x}
    ensures r[0] == x || (|s| > 0 && r[0] == s[0])
  {
    if |s| == 0 then [x]
    else if RowLe(x, s[0]) then
      SortedCons(x, s);
      [x] + s
    else
      RowLeTotal(x, s[0]);
      SortedTail(s);
      var rest := Insert(x, s[1..]);
      SortedCons(s[0], rest);
      assert s == [s[0]] + s[1..];
      [s[0]] + rest
  }

  /** `sort_values(["year", "title"])`: a permutation of the rows in which
      each row may precede the next. Rows with equal keys keep their order. */
  function SortByYearAndTitle(rows: seq<Row>): (r: seq<Row>)
    ensures SortedByYearAndTitle(r)
    ensures multiset(r) == multiset(rows)
  {
    if |rows| == 0 then []
    else
      assert rows == [rows[0]] + rows[1..];
      Insert(rows[0], SortByYearAndTitle(rows[1..]))
  }

  /** Sorting a sorted table changes nothing, so sorting twice is sorting once. */
  lemma {:induction false} SortSortedIsIdentity(rows: seq<Row>)
    requires SortedByYearAndTitle(rows)
    ensures SortByYearAndTitle(rows) == rows
  {
    if |rows| > 0 {
      SortSortedIsIdentity(rows[1..]);
      assert rows == [rows[0]] + rows[1..];
    }
  }

  lemma SortIdempotent(rows: seq<Row>)
    ensures SortByYearAndTitle(SortByYearAndTitle(rows)) == SortByYearAndTitle(rows)
  {
    SortSortedIsIdentity(SortByYearAndTitle(rows));
  }

  /** Dropping the first row of a table with unique ids keeps the ids unique, and that row does not occur again. */
  lemma UniqueTail(rows: seq<Row>)
    requires |rows| > 0 && NoDuplicates(RowIds(rows))
    ensures NoDuplicates(RowIds(rows[1..]))
    ensures rows[0] !in rows[1..]
  {
    forall i | 0 <= i < |rows| - 1 ensures RowIds(rows[1..])[i] == RowIds(rows)[i + 1] && rows[1..][i] != rows[0] {
      assert RowIds(rows)[i + 1] != RowIds(rows)[0];
    }
  }

  /** In a table with unique ids no row occurs twice. */
  lemma {:induction false} RowCountsAtMostOne(rows: seq<Row>, x: Row)
    requires NoDuplicates(RowIds(rows))
    ensures multiset(rows)[x] <= 1
  {
    if |rows| > 0 {
      UniqueTail(rows);
      RowCountsAtMostOne(rows[1..], x);
      assert rows == [rows[0]] + rows[1..];
      assert multiset(rows) == multiset{rows[0]} + multiset(rows[1..]);
    }
  }

  /** Two positions holding the same element count it twice. */
  lemma RepeatCounts<T>(s: seq<T>, i: nat, j: nat)
    requires i < j < |s| && s[i] == s[j]
    ensures multiset(s)[s[i]] >= 2
  {
    assert s == s[..i] + [s[i]] + s[i + 1..j] + [s[j]] + s[j + 1..];
  }

  /** Sorting keeps the ids. */
  lemma SortKeepsIds(rows: seq<Row>)
    ensures forall x :: x in RowIds(SortByYearAndTitle(rows)) <==> x in RowIds(rows)
  {
    var sorted := SortByYearAndTitle(rows);
    forall x ensures x in RowIds(sorted) <==> x in RowIds(rows) {
      if x in RowIds(sorted) {
        var i :| 0 <= i < |sorted| && RowIds(sorted)[i] == x;
        assert sorted[i] in multiset(rows);
        var p :| 0 <= p < |rows| && rows[p] == sorted[i];
        assert RowIds(rows)[p] == x;
      }
      if x in RowIds(rows) {
        var p :| 0 <= p < |rows| && RowIds(rows)[p] == x;
        assert rows[p] in multiset(sorted);
        var i :| 0 <= i < |sorted| && sorted[i] == rows[p];
        assert RowIds(sorted)[i] == x;
      }
    }
  }

  /** Sorting keeps the rows, so it keeps unique ids unique. */
  lemma SortKeepsUniqueIds(rows: seq<Row>)
    requires NoDuplicates(RowIds(rows))
    ensures NoDuplicates(RowIds(SortByYearAndTitle(rows)))
  {
    var sorted := SortByYearAndTitle(rows);
    forall i, j | 0 <= i < j < |sorted| ensures RowIds(sorted)[i] != RowIds(sorted)[j] {
      if sorted[i] == sorted[j] {
        RepeatCounts(sorted, i, j);
        RowCountsAtMostOne(rows, sorted[i]);
      } else {
        assert sorted[i] in multiset(rows) && sorted[j] in multiset(rows);
        var p :| 0 <= p < |rows| && rows[p] == sorted[i];
        var q :| 0 <= q < |rows| && rows[q] == sorted[j];
        assert RowIds(rows)[p] != RowIds(rows)[q];
      }
    }
  }
}
