/** The reconciliation steps of one run, composed in the order the entry point
    calls them: the stored table is dropped when overwriting, the URLs of the
    films it lacks are scraped, and the final table is the ratings table
    joined with the stored film data plus the new film data, sorted by year
    and title. The step that builds the final table in the entry point is not
    part of this model; this composes the operations of the data-wrangling
    utilities. */
module Pipeline {
  import opened Wrappers
  import opened LetterboxdScraping
  import opened DataWrangling

  /** The stored table this run works against: none when overwriting. */
  function EffectiveSnapshot(stored: Option<seq<Row>>, overwrite: string): (r: Option<seq<Row>>)
    ensures overwrite == "true" ==> r.None?
    ensures overwrite != "true" ==> r == stored
  {
    if overwrite == "true" then None else stored
  }

  /** The ids the stored table already has; none without a stored table. */
  function KnownIds(snapshot: Option<seq<Row>>): (r: seq<int>)
    ensures NoDuplicates(r)
    ensures forall x :: x in r <==> snapshot.Some? && x in RowIds(snapshot.value)
  {
    match snapshot
    case None => []
    case Some(df) => GetFilmIdsInCurrentDf(df)
  }

  /** The URLs of the film pages this run has to scrape. */
  function DeltaUrls(snapshot: Option<seq<Row>>, listing: IdsRatingsUrls): (r: seq<string>)
    ensures |r| <= |listing.urls|
    ensures forall u :: u in r ==> u in listing.urls
  {
    UnknownUrls(Zip(listing.ids, listing.urls), KnownIds(snapshot))
  }

  /** Without a stored table (never written, or dropped by overwriting) every
      listed URL is scraped again. */
  lemma DeltaWithoutSnapshot(stored: Option<seq<Row>>, overwrite: string, listing: IdsRatingsUrls)
    requires stored.None? || overwrite == "true"
    requires |listing.ids| == |listing.urls|
    ensures DeltaUrls(EffectiveSnapshot(stored, overwrite), listing) == listing.urls
  {
    NewRecordsBounds(listing.ids, listing.urls, []);
    assert listing.urls[..|listing.urls|] == listing.urls;
  }

  /** Against a stored table exactly the URLs of the listed films it lacks are
      scraped. */
  lemma DeltaAgainstSnapshot(df: seq<Row>, listing: IdsRatingsUrls, url: string)
    requires |listing.ids| == |listing.urls|
    ensures url in DeltaUrls(Some(df), listing) <==>
              exists i :: 0 <= i < |listing.ids| && listing.ids[i] !in RowIds(df) && listing.urls[i] == url
  {
    var pairs := Zip(listing.ids, listing.urls);
    UnknownUrlsMembers(pairs, KnownIds(Some(df)), url);
    if exists i :: 0 <= i < |listing.ids| && listing.ids[i] !in RowIds(df) && listing.urls[i] == url {
      var i :| 0 <= i < |listing.ids| && listing.ids[i] !in RowIds(df) && listing.urls[i] == url;
      assert pairs[i] == (listing.ids[i], listing.urls[i]);
    }
  }

  /** The film data to join: the stored rows without their ratings followed by
      the newly scraped rows, or the new rows alone. */
  function DetailTable(snapshot: Option<seq<Row>>, freshFilms: seq<FilmRecord>): (r: seq<FilmRecord>)
    ensures snapshot.None? ==> r == freshFilms
    ensures snapshot.Some? ==> |r| == |snapshot.value| + |freshFilms| && r[|snapshot.value|..] == freshFilms
    ensures snapshot.Some? ==> FilmIds(r) == RowIds(snapshot.value) + FilmIds(freshFilms)
    ensures snapshot.Some? ==> forall i :: 0 <= i < |snapshot.value| ==> WithRating(r[i], snapshot.value[i].rating) == snapshot.value[i]
  {
    match snapshot
    case None => freshFilms
    case Some(df) => AppendNewRecords(GetAllColumnsExceptRatings(df), freshFilms)
  }

  /** Stored rows and new rows with unique ids and no id in common give film
      data with unique ids. */
  lemma DetailTableUnique(snapshot: Option<seq<Row>>, freshFilms: seq<FilmRecord>)
    requires NoDuplicates(FilmIds(freshFilms))
    requires snapshot.Some? ==> NoDuplicates(RowIds(snapshot.value))
    requires snapshot.Some? ==> forall x :: x in FilmIds(freshFilms) ==> x !in RowIds(snapshot.value)
    ensures NoDuplicates(FilmIds(DetailTable(snapshot, freshFilms)))
  {
    if snapshot.Some? {
      var stored := RowIds(snapshot.value);
      var ids := FilmIds(DetailTable(snapshot, freshFilms));
      assert ids == stored + FilmIds(freshFilms);
      forall i, j | 0 <= i < j < |ids| ensures ids[i] != ids[j] {
        if j >= |stored| && i < |stored| {
          assert ids[j] in FilmIds(freshFilms);
          assert ids[i] in stored;
        }
      }
    }
  }

  /** The final table of a run: the ratings table inner-joined with the film
      data on id, sorted by year and title. */
  function ComposedTable(snapshot: Option<seq<Row>>, listing: IdsRatingsUrls, freshFilms: seq<FilmRecord>)
    : (r: Result<seq<Row>, PyException>)
    ensures r.Success? <==> |listing.ids| == |listing.ratings| == |listing.urls|
  {
    var ratings :- GetRatingsDataframe(listing);
    Success(SortByYearAndTitle(InnerJoin(ratings, DetailTable(snapshot, freshFilms))))
  }

  /** A row of the sorted join merges a ratings row with a film row of the
      same id. */
  lemma SortedJoinRowOrigin(ratings: seq<RatingRow>, detail: seq<FilmRecord>, row: Row)
    requires row in SortByYearAndTitle(InnerJoin(ratings, detail))
    ensures exists i, j :: 0 <= i < |ratings| && 0 <= j < |detail| && ratings[i].id == detail[j].id
                           && row == Merge(ratings[i], detail[j])
  {
    var joined := InnerJoin(ratings, detail);
    var sorted := SortByYearAndTitle(joined);
    assert row in multiset(sorted);
    assert row in multiset(joined);
    assert row in joined;
  }

  /** The row's id was listed with the row's rating. */
  predicate ListedPair(listing: IdsRatingsUrls, row: Row) {
    exists i :: 0 <= i < |listing.ids| && i < |listing.ratings| && listing.ids[i] == row.id && listing.ratings[i] == row.rating
  }

  /** Apart from its rating, the row is a row of film data. */
  predicate HasFilmData(detail: seq<FilmRecord>, row: Row) {
    exists f :: f in detail && WithRating(f, row.rating) == row
  }

  /** The final table is sorted; its ids all come from the fresh listing, so a
      film no longer listed is dropped even when stored; each row carries the
      fresh rating of its id and, apart from that rating, a row of film data. */
  lemma ComposedTableFromListing(snapshot: Option<seq<Row>>, listing: IdsRatingsUrls, freshFilms: seq<FilmRecord>)
    requires ComposedTable(snapshot, listing, freshFilms).Success?
    ensures var t := ComposedTable(snapshot, listing, freshFilms).value;
            && SortedByYearAndTitle(t)
            && (forall k :: 0 <= k < |t| ==> t[k].id in listing.ids)
            && (forall k :: 0 <= k < |t| ==> ListedPair(listing, t[k]))
            && (forall k :: 0 <= k < |t| ==> HasFilmData(DetailTable(snapshot, freshFilms), t[k]))
  {
    var ratings := GetRatingsDataframe(listing).value;
    var detail := DetailTable(snapshot, freshFilms);
    var t := SortByYearAndTitle(InnerJoin(ratings, detail));
    assert ComposedTable(snapshot, listing, freshFilms).value == t;
    forall k | 0 <= k < |t|
      ensures t[k].id in listing.ids
      ensures ListedPair(listing, t[k])
      ensures HasFilmData(detail, t[k])
    {
      ListedRowOrigin(listing, ratings, detail, t[k]);
    }
  }

  /** One row of the final table: its id and rating are a listed pair and the
      rest is a row of film data. */
  lemma ListedRowOrigin(listing: IdsRatingsUrls, ratings: seq<RatingRow>, detail: seq<FilmRecord>, row: Row)
    requires GetRatingsDataframe(listing).Success? && ratings == GetRatingsDataframe(listing).value
    requires row in SortByYearAndTitle(InnerJoin(ratings, detail))
    ensures row.id in listing.ids
    ensures ListedPair(listing, row)
    ensures HasFilmData(detail, row)
  {
    SortedJoinRowOrigin(ratings, detail, row);
    var i, j :| 0 <= i < |ratings| && 0 <= j < |detail| && ratings[i].id == detail[j].id
                && row == Merge(ratings[i], detail[j]);
    assert RatingIds(ratings)[i] == listing.ids[i];
    assert detail[j] in detail;
  }

  /** With unique listed ids and unique film-data ids, no id occurs twice in
      the final table, and its ids are exactly those listed that have film
      data. */
  lemma ComposedTableUnique(snapshot: Option<seq<Row>>, listing: IdsRatingsUrls, freshFilms: seq<FilmRecord>)
    requires ComposedTable(snapshot, listing, freshFilms).Success?
    requires NoDuplicates(listing.ids)
    requires NoDuplicates(FilmIds(DetailTable(snapshot, freshFilms)))
    ensures var t := ComposedTable(snapshot, listing, freshFilms).value;
            && NoDuplicates(RowIds(t))
            && forall x :: x in RowIds(t) <==> x in listing.ids && x in FilmIds(DetailTable(snapshot, freshFilms))
  {
    var ratings := GetRatingsDataframe(listing).value;
    var joined := InnerJoin(ratings, DetailTable(snapshot, freshFilms));
    JoinIdsUnique(ratings, DetailTable(snapshot, freshFilms));
    SortKeepsIds(joined);
    SortKeepsUniqueIds(joined);
  }

  /** With unique listed ids the rating in the final table is the listed one,
      whatever rating the stored table held. */
  lemma ComposedTableFreshRatings(snapshot: Option<seq<Row>>, listing: IdsRatingsUrls, freshFilms: seq<FilmRecord>)
    requires ComposedTable(snapshot, listing, freshFilms).Success?
    requires NoDuplicates(listing.ids)
    ensures var t := ComposedTable(snapshot, listing, freshFilms).value;
            forall k, i :: 0 <= k < |t| && 0 <= i < |listing.ids| && listing.ids[i] == t[k].id ==>
                             t[k].rating == listing.ratings[i]
  {
    var t := ComposedTable(snapshot, listing, freshFilms).value;
    ComposedTableFromListing(snapshot, listing, freshFilms);
    forall k, i | 0 <= k < |t| && 0 <= i < |listing.ids| && listing.ids[i] == t[k].id
      ensures t[k].rating == listing.ratings[i]
    {
      assert ListedPair(listing, t[k]);
      var i' :| 0 <= i' < |listing.ids| && i' < |listing.ratings| && listing.ids[i'] == t[k].id && listing.ratings[i'] == t[k].rating;
      assert i == i';
    }
  }
}
