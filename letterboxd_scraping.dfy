/** Scraping of listing pages (film ids, owner ratings, film URLs) and of film
    pages (title, year, director, cast, countries). Parsed HTML documents and
    the decoded ld+json block are abstract inputs: a listing page is the list
    of its film elements, a film page its film element and its decoded JSON. */
module LetterboxdScraping {
  import opened Wrappers
  import opened PyStr
  import opened Metadata

  /* ---------------------------------------------------------------------
     Pagination
     --------------------------------------------------------------------- */

  /** The page count of a playlist, from the texts of its pagination items:
      1 when there are none, otherwise `int` of the last item's text (which
      raises ValueError when that text is not a number). */
  function GetNumberOfPages(paginatePageTexts: seq<string>): (r: Result<int, PyException>)
    ensures |paginatePageTexts| == 0 ==> r == Success(1)
    ensures |paginatePageTexts| > 0 ==> r == ParseInt(paginatePageTexts[|paginatePageTexts| - 1])
  {
    if |paginatePageTexts| == 0 then Success(1) else ParseInt(paginatePageTexts[|paginatePageTexts| - 1])
  }

  /** A pagination whose last item reads `n` gives `n` pages. */
  lemma NumberOfPagesFromLastItem(paginatePageTexts: seq<string>, n: nat)
    requires |paginatePageTexts| > 0 && paginatePageTexts[|paginatePageTexts| - 1] == NatToString(n)
    ensures GetNumberOfPages(paginatePageTexts) == Success(n)
  {
    ParseIntNatToString(n);
  }

  /** The URL of the `k`-th listing page. */
  function PageUrl(url: string, k: nat): string {
    url + "/page/" + NatToString(k) + "/"
  }

  /** One URL per page, for pages 1 to `numberOfPages`; none when the count is
      not positive. */
  function GetUrlForEachPage(metadata: PlaylistMetadata): (r: seq<string>)
    ensures |r| == if metadata.numberOfPages <= 0 then 0 else metadata.numberOfPages
    ensures forall k :: 1 <= k <= |r| ==> r[k - 1] == PageUrl(metadata.url, k)
  {
    var n := if metadata.numberOfPages <= 0 then 0 else metadata.numberOfPages;
    seq(n, i requires 0 <= i < n => PageUrl(metadata.url, i + 1))
  }

  /** The page number can be read back out of every page URL. */
  lemma PageUrlNumber(url: string, k: nat)
    ensures var u := PageUrl(url, k);
            |u| >= |url| + 7 && ParseInt(u[|url| + 6..|u| - 1]) == Success(k)
  {
    var u := PageUrl(url, k);
    assert u[|url| + 6..|u| - 1] == NatToString(k);
    ParseIntNatToString(k);
  }

  /** No two pages share a URL. */
  lemma PageUrlsDistinct(metadata: PlaylistMetadata)
    ensures var r := GetUrlForEachPage(metadata);
            forall i, j :: 0 <= i < j < |r| ==> r[i] != r[j]
  {
    var r := GetUrlForEachPage(metadata);
    forall i, j | 0 <= i < j < |r| ensures r[i] != r[j] {
      PageUrlNumber(metadata.url, i + 1);
      PageUrlNumber(metadata.url, j + 1);
    }
  }

  /* ---------------------------------------------------------------------
     Flattening
     --------------------------------------------------------------------- */

  function TotalLength<T>(lst: seq<seq<T>>): nat {
    if |lst| == 0 then 0 else |lst[0]| + TotalLength(lst[1..])
  }

  /** Chains the inner lists one after the other into a single list. */
  function UnnestList<T>(lst: seq<seq<T>>): (r: seq<T>)
    ensures |r| == TotalLength(lst)
  {
    if |lst| == 0 then [] else lst[0] + UnnestList(lst[1..])
  }

  /** Flattening keeps order: element `j` of inner list `i` lands right after
      the elements of the lists before it. */
  lemma {:induction false} UnnestListAt<T>(lst: seq<seq<T>>, i: nat, j: nat)
    requires i < |lst| && j < |lst[i]|
    ensures TotalLength(lst[..i]) + j < |UnnestList(lst)|
    ensures UnnestList(lst)[TotalLength(lst[..i]) + j] == lst[i][j]
  {
    if i == 0 {
      assert lst[..0] == [];
    } else {
      UnnestListAt(lst[1..], i - 1, j);
      assert lst[1..][..i - 1] == lst[..i][1..];
    }
  }

  /** Flattening a concatenation concatenates the flattenings. */
  lemma {:induction false} UnnestListAppend<T>(a: seq<seq<T>>, b: seq<seq<T>>)
    ensures UnnestList(a + b) == UnnestList(a) + UnnestList(b)
  {
    if |a| > 0 {
      assert (a + b)[1..] == a[1..] + b;
      UnnestListAppend(a[1..], b);
    } else {
      assert a + b == b;
    }
  }

  /** Lists of lists of the same shape flatten to the same length. */
  lemma {:induction false} TotalLengthSameShape<S, T>(a: seq<seq<S>>, b: seq<seq<T>>)
    requires |a| == |b|
    requires forall i :: 0 <= i < |a| ==> |a[i]| == |b[i]|
    ensures TotalLength(a) == TotalLength(b)
  {
    if |a| > 0 {
      TotalLengthSameShape(a[1..], b[1..]);
    }
  }

  /* ---------------------------------------------------------------------
     Listing pages
     --------------------------------------------------------------------- */

  const LetterboxdBase: string := "https://letterboxd.com"

  /** A `div.really-lazy-load` film element: its `data-film-id` and
      `data-film-slug` attributes. */
  datatype FilmDiv = FilmDiv(filmId: int, filmSlug: string)

  /** A parsed listing page: its film elements; the `data-owner-rating` of each
      `li.poster-container` (`None` when the attribute is absent); and the
      ratings the fallback reads out of the `rated` spans. */
  datatype ListingPage = ListingPage(lazyLoadDivs: seq<FilmDiv>, posterRatings: seq<Option<int>>, ratedSpanRatings: seq<int>)

  /** The `data-film-id` of every film element, one per element, in page order. */
  function GetIds(soup: ListingPage): (r: seq<int>)
    ensures |r| == |soup.lazyLoadDivs|
    ensures forall i :: 0 <= i < |r| ==> r[i] == soup.lazyLoadDivs[i].filmId
  {
    seq(|soup.lazyLoadDivs|, i requires 0 <= i < |soup.lazyLoadDivs| => soup.lazyLoadDivs[i].filmId)
  }

  /** The owner ratings of the poster elements; when one of them has no rating
      (`int(None)` raises TypeError) the ratings of the fallback spans. */
  function GetRatings(soup: ListingPage): (r: seq<int>)
    ensures (forall i :: 0 <= i < |soup.posterRatings| ==> soup.posterRatings[i].Some?) ==>
              |r| == |soup.posterRatings| && forall i :: 0 <= i < |r| ==> Some(r[i]) == soup.posterRatings[i]
    ensures (exists i :: 0 <= i < |soup.posterRatings| && soup.posterRatings[i].None?) ==> r == soup.ratedSpanRatings
  {
    if forall i :: 0 <= i < |soup.posterRatings| ==> soup.posterRatings[i].Some? then
      seq(|soup.posterRatings|, i requires 0 <= i < |soup.posterRatings| && soup.posterRatings[i].Some? => soup.posterRatings[i].value)
    else
      soup.ratedSpanRatings
  }

  /** The letterboxd.com URL of every film element, from its slug, in page order. */
  function GetFilmUrls(soup: ListingPage): (r: seq<string>)
    ensures |r| == |soup.lazyLoadDivs|
    ensures forall i :: 0 <= i < |r| ==> r[i] == LetterboxdBase + soup.lazyLoadDivs[i].filmSlug
    ensures forall i :: 0 <= i < |r| ==> LetterboxdBase <= r[i]
  {
    seq(|soup.lazyLoadDivs|, i requires 0 <= i < |soup.lazyLoadDivs| => LetterboxdBase + soup.lazyLoadDivs[i].filmSlug)
  }

  /** Ids and URLs are read from the same elements: position `i` of both
      belongs to film element `i`, and every URL is on letterboxd.com. */
  lemma IdsAndUrlsAligned(soup: ListingPage)
    ensures |GetIds(soup)| == |GetFilmUrls(soup)| == |soup.lazyLoadDivs|
    ensures forall i :: 0 <= i < |soup.lazyLoadDivs| ==>
              GetIds(soup)[i] == soup.lazyLoadDivs[i].filmId
              && GetFilmUrls(soup)[i] == LetterboxdBase + soup.lazyLoadDivs[i].filmSlug
              && LetterboxdBase <= GetFilmUrls(soup)[i]
  {
  }

  function PagesIds(pages: seq<ListingPage>): (r: seq<seq<int>>)
    ensures |r| == |pages|
  {
    seq(|pages|, i requires 0 <= i < |pages| => GetIds(pages[i]))
  }

  function PagesRatings(pages: seq<ListingPage>): (r: seq<seq<int>>)
    ensures |r| == |pages|
  {
    seq(|pages|, i requires 0 <= i < |pages| => GetRatings(pages[i]))
  }

  function PagesUrls(pages: seq<ListingPage>): (r: seq<seq<string>>)
    ensures |r| == |pages|
  {
    seq(|pages|, i requires 0 <= i < |pages| => GetFilmUrls(pages[i]))
  }

  /** The `ids`, `ratings` and `urls` dictionary of a scraped playlist. */
  datatype IdsRatingsUrls = IdsRatingsUrls(ids: seq<int>, ratings: seq<int>, urls: seq<string>)

  /** Scrapes every listing page in turn and flattens the per-page lists, so
      each output is the page-order concatenation of the pages' lists. */
  method ScrapeIdsRatingsAndUrls(pagesSoups: seq<ListingPage>) returns (r: IdsRatingsUrls)
    ensures r.ids == UnnestList(PagesIds(pagesSoups))
    ensures r.ratings == UnnestList(PagesRatings(pagesSoups))
    ensures r.urls == UnnestList(PagesUrls(pagesSoups))
  {
    var ids: seq<seq<int>>, ratings: seq<seq<int>>, filmUrls: seq<seq<string>> := [], [], [];
    for k := 0 to |pagesSoups|
      invariant |ids| == |ratings| == |filmUrls| == k
      invariant forall j :: 0 <= j < k ==> ids[j] == GetIds(pagesSoups[j])
      invariant forall j :: 0 <= j < k ==> ratings[j] == GetRatings(pagesSoups[j])
      invariant forall j :: 0 <= j < k ==> filmUrls[j] == GetFilmUrls(pagesSoups[j])
    {
      var soup := pagesSoups[k];
      var idList, ratingList, urlList := GetIds(soup), GetRatings(soup), GetFilmUrls(soup);
      ids := ids + [idList];
      ratings := ratings + [ratingList];
      filmUrls := filmUrls + [urlList];
    }
    assert ids == PagesIds(pagesSoups);
    assert ratings == PagesRatings(pagesSoups);
    assert filmUrls == PagesUrls(pagesSoups);
    r := IdsRatingsUrls(UnnestList(ids), UnnestList(ratings), UnnestList(filmUrls));
  }

  /** The scraped ids and URLs always have equal length; the ratings too when
      every page yields as many ratings as ids. */
  lemma ScrapedListsSameLength(pages: seq<ListingPage>)
    ensures |UnnestList(PagesIds(pages))| == |UnnestList(PagesUrls(pages))|
    ensures (forall p :: p in pages ==> |GetRatings(p)| == |GetIds(p)|) ==>
              |UnnestList(PagesRatings(pages))| == |UnnestList(PagesIds(pages))|
  {
    TotalLengthSameShape(PagesIds(pages), PagesUrls(pages));
    if forall p :: p in pages ==> |GetRatings(p)| == |GetIds(p)| {
      TotalLengthSameShape(PagesIds(pages), PagesRatings(pages));
    }
  }

  /** Scraping pages `a` then pages `b` lists `a`'s films before `b`'s. */
  lemma ScrapedListsPageOrder(a: seq<ListingPage>, b: seq<ListingPage>)
    ensures UnnestList(PagesIds(a + b)) == UnnestList(PagesIds(a)) + UnnestList(PagesIds(b))
    ensures UnnestList(PagesRatings(a + b)) == UnnestList(PagesRatings(a)) + UnnestList(PagesRatings(b))
    ensures UnnestList(PagesUrls(a + b)) == UnnestList(PagesUrls(a)) + UnnestList(PagesUrls(b))
  {
    assert PagesIds(a + b) == PagesIds(a) + PagesIds(b);
    assert PagesRatings(a + b) == PagesRatings(a) + PagesRatings(b);
    assert PagesUrls(a + b) == PagesUrls(a) + PagesUrls(b);
    UnnestListAppend(PagesIds(a), PagesIds(b));
    UnnestListAppend(PagesRatings(a), PagesRatings(b));
    UnnestListAppend(PagesUrls(a), PagesUrls(b));
  }

  /* ---------------------------------------------------------------------
     Film pages
     --------------------------------------------------------------------- */

  /** A decoded JSON value. An object keeps its members in document order. */
  datatype Json =
    | JString(str: string)
    | JNumber(num: int)
    | JArray(items: seq<Json>)
    | JObject(members: seq<(string, Json)>)

  /** The value of `key` in an object's members: the last member with that
      key wins, as in `json.loads`. */
  function Lookup(members: seq<(string, Json)>, key: string): (r: Option<Json>)
    ensures r.None? <==> forall i :: 0 <= i < |members| ==> members[i].0 != key
    ensures r.Some? ==> exists i :: 0 <= i < |members| && members[i] == (key, r.value)
                                    && forall j :: i < j < |members| ==> members[j].0 != key
  {
    if |members| == 0 then None
    else if members[|members| - 1].0 == key then Some(members[|members| - 1].1)
    else Lookup(members[..|members| - 1], key)
  }

  /** Subscripting a decoded value with a string key: the key's value in an
      object, KeyError when the object lacks it, TypeError for any other value. */
  function Subscript(v: Json, key: string): (r: Result<Json, PyException>)
    ensures r.Success? <==> v.JObject? && Lookup(v.members, key).Some?
    ensures r.Success? ==> Lookup(v.members, key) == Some(r.value)
    ensures r == Failure(KeyError) <==> v.JObject? && Lookup(v.members, key).None?
    ensures r.Failure? ==> r.error in {KeyError, TypeError}
  {
    match v
    case JObject(members) =>
      (match Lookup(members, key)
       case Some(x) => Success(x)
       case None => Failure(KeyError))
    case _ => Failure(TypeError)   // strings and lists take integer indices; numbers none
  }

  /** Subscripting a decoded value with 0: the first element of a list or the
      first character of a string. */
  function SubscriptFirst(v: Json): Result<Json, PyException> {
    match v
    case JArray(items) => if |items| > 0 then Success(items[0]) else Failure(IndexError)
    case JString(s) => if |s| > 0 then Success(JString(s[..1])) else Failure(IndexError)
    case JObject(_) => Failure(KeyError)   // JSON object keys are strings, never 0
    case JNumber(_) => Failure(TypeError)
  }

  /** Python's `int` applied to a decoded value. */
  function ToInt(v: Json): Result<int, PyException> {
    match v
    case JNumber(n) => Success(n)
    case JString(s) => ParseInt(s)
    case _ => Failure(TypeError)
  }

  /** The `name` of each item, in order; the first failing lookup raises. */
  function NamesOf(items: seq<Json>): (r: Result<seq<Json>, PyException>)
    ensures r.Success? <==> forall i :: 0 <= i < |items| ==> Subscript(items[i], "name").Success?
    ensures r.Success? ==> |r.value| == |items|
    ensures r.Success? ==> forall i :: 0 <= i < |items| ==> Subscript(items[i], "name") == Success(r.value[i])
    ensures r.Failure? ==> exists k :: 0 <= k < |items| && Subscript(items[k], "name") == Failure(r.error)
                                      && forall j :: 0 <= j < k ==> Subscript(items[j], "name").Success?
  {
    if |items| == 0 then Success([])
    else
      var name :- Subscript(items[0], "name");
      var rest :- NamesOf(items[1..]);
      Success([name] + rest)
  }

  /** The `name` of each element of any decoded value, as the comprehension
      over it reads them. */
  function NamesIn(v: Json): Result<seq<Json>, PyException> {
    match v
    case JArray(items) => NamesOf(items)
    // Iterating a string yields one-character strings and iterating an object
    // yields its string keys; `['name']` on a string raises TypeError.
    case JString(s) => if |s| == 0 then Success([]) else Failure(TypeError)
    case JObject(members) => if |members| == 0 then Success([]) else Failure(TypeError)
    case JNumber(_) => Failure(TypeError)   // not iterable
  }

  /** The text of each name, in order. */
  function NameStrings(names: seq<Json>): (r: seq<string>)
    requires forall i :: 0 <= i < |names| ==> names[i].JString?
    ensures |r| == |names| && forall i :: 0 <= i < |names| ==> names[i] == JString(r[i])
  {
    seq(|names|, i requires 0 <= i < |names| && names[i].JString? => names[i].str)
  }

  /** The names joined by ";"; a name that is not a string raises TypeError. */
  function JoinNames(names: seq<Json>): (r: Result<string, PyException>)
    ensures r.Success? <==> forall i :: 0 <= i < |names| ==> names[i].JString?
    ensures r.Failure? ==> r.error == TypeError
    ensures r.Success? ==> r.value == Join(';', NameStrings(names))
  {
    if forall i :: 0 <= i < |names| ==> names[i].JString? then
      Success(Join(';', NameStrings(names)))
    else
      Failure(TypeError)
  }

  /** Turns a KeyError into the missing marker; any other error propagates. */
  function CatchKeyError<T>(r: Result<T, PyException>): (f: Result<Field<T>, PyException>)
    ensures r.Success? ==> f == Success(Present(r.value))
    ensures r.Failure? && r.error == KeyError ==> f == Success(Missing)
    ensures r.Failure? && r.error != KeyError ==> f == Failure(r.error)
  {
    match r
    case Success(x) => Success(Present(x))
    case Failure(e) => if e == KeyError then Success(Missing) else Failure(e)
  }

  /** The `';'`-joined `name`s of the entries under `key`, or the missing
      marker when a key is absent. */
  function JoinedNames(d: Json, key: string): Result<Field<string>, PyException> {
    CatchKeyError(
      var v :- Subscript(d, key);
      var names :- NamesIn(v);
      JoinNames(names))
  }

  /** A parsed film page: its `div.really-lazy-load` element (`None` when the
      page has none) and its decoded ld+json block. */
  datatype FilmPage = FilmPage(lazyLoad: Option<FilmDiv>, ldJson: Json)

  /** The `data-film-id` of the page's film element; a page without one raises
      AttributeError. */
  function GetId(film: FilmPage): (r: Result<int, PyException>)
    ensures r.Success? <==> film.lazyLoad.Some?
    ensures r.Success? ==> r.value == film.lazyLoad.value.filmId
    ensures r.Failure? ==> r.error == AttributeError
  {
    match film.lazyLoad
    case None => Failure(AttributeError)   // `.get` on the None that `find` returned
    case Some(div) => Success(div.filmId)
  }

  /** The decoded value is an object whose `name` is a string. */
  predicate HasStringName(d: Json) {
    d.JObject? && Lookup(d.members, "name").Some? && Lookup(d.members, "name").value.JString?
  }

  /** The `name` of the decoded object, with no fallback: an absent name raises
      KeyError. */
  function GetTitle(film: FilmPage): (r: Result<string, PyException>)
    ensures r.Success? <==> HasStringName(film.ldJson)
    ensures r.Success? ==> Lookup(film.ldJson.members, "name") == Some(JString(r.value))
    ensures r == Failure(KeyError) <==> film.ldJson.JObject? && Lookup(film.ldJson.members, "name").None?
    ensures r.Failure? ==> r.error in {KeyError, TypeError}
  {
    var name :- Subscript(film.ldJson, "name");
    if name.JString? then Success(name.str) else Failure(TypeError)
  }

  /** The start date of the first release event as a number, or the missing
      marker when a key on the way is absent. */
  function GetYear(film: FilmPage): (r: Result<Field<int>, PyException>)
    ensures r.Failure? ==> r.error in {TypeError, IndexError, ValueError}
    ensures film.ldJson.JObject? && Lookup(film.ldJson.members, "releasedEvent").None? ==> r == Success(Missing)
  {
    CatchKeyError(
      var events :- Subscript(film.ldJson, "releasedEvent");
      var first :- SubscriptFirst(events);
      var start :- Subscript(first, "startDate");
      ToInt(start))
  }

  /** The names under "director" joined by ";", or the missing marker. */
  function GetDirector(film: FilmPage): (r: Result<Field<string>, PyException>)
    ensures r.Failure? ==> r.error == TypeError
    ensures film.ldJson.JObject? && Lookup(film.ldJson.members, "director").None? ==> r == Success(Missing)
  {
    JoinedNames(film.ldJson, "director")
  }

  /** The names under "actors" joined by ";", or the missing marker. */
  function GetCast(film: FilmPage): (r: Result<Field<string>, PyException>)
    ensures r.Failure? ==> r.error == TypeError
    ensures film.ldJson.JObject? && Lookup(film.ldJson.members, "actors").None? ==> r == Success(Missing)
  {
    JoinedNames(film.ldJson, "actors")
  }

  /** The names under "countryOfOrigin" joined by ";", or the missing marker. */
  function GetCountry(film: FilmPage): (r: Result<Field<string>, PyException>)
    ensures r.Failure? ==> r.error == TypeError
    ensures film.ldJson.JObject? && Lookup(film.ldJson.members, "countryOfOrigin").None? ==> r == Success(Missing)
  {
    JoinedNames(film.ldJson, "countryOfOrigin")
  }

  predicate HasKey(d: Json, key: string) {
    d.JObject? && exists i :: 0 <= i < |d.members| && d.members[i].0 == key
  }

  /** An object without the key gives the missing marker for year, director,
      cast and country, while the title has no fallback and raises KeyError. */
  lemma AbsentKeyGivesMissing(film: FilmPage)
    requires film.ldJson.JObject?
    ensures !HasKey(film.ldJson, "releasedEvent") ==> GetYear(film) == Success(Missing)
    ensures !HasKey(film.ldJson, "director") ==> GetDirector(film) == Success(Missing)
    ensures !HasKey(film.ldJson, "actors") ==> GetCast(film) == Success(Missing)
    ensures !HasKey(film.ldJson, "countryOfOrigin") ==> GetCountry(film) == Success(Missing)
    ensures !HasKey(film.ldJson, "name") ==> GetTitle(film) == Failure(KeyError)
  {
  }

  /** Each item is an object whose `name` member is the matching string; it
      may hold any other members too. */
  predicate NameEntries(items: seq<Json>, names: seq<string>) {
    |items| == |names| && forall i :: 0 <= i < |items| ==> items[i].JObject? && Lookup(items[i].members, "name") == Some(JString(names[i]))
  }

  /** When the key holds a list of objects with string names, the field is
      those names joined by ";" in list order, and splitting it at ";" gives
      the names back whenever none of them contains ";". */
  lemma JoinedNamesInOrder(d: Json, key: string, items: seq<Json>, names: seq<string>)
    requires d.JObject? && Lookup(d.members, key) == Some(JArray(items))
    requires NameEntries(items, names)
    ensures JoinedNames(d, key) == Success(Present(Join(';', names)))
    ensures |names| >= 1 && (forall i :: 0 <= i < |names| ==> ';' !in names[i]) ==>
              Split(';', Join(';', names)) == names
  {
    NamesOfNameEntries(items, names);
    var js := seq(|names|, i requires 0 <= i < |names| => JString(names[i]));
    assert NameStrings(js) == names;
    assert NamesIn(JArray(items)) == Success(js);
    assert JoinNames(js) == Success(Join(';', names));
    if |names| >= 1 && (forall i :: 0 <= i < |names| ==> ';' !in names[i]) {
      SplitJoin(';', names);
    }
  }

  /** The names read from such items are the strings, in order. */
  lemma {:induction false} NamesOfNameEntries(items: seq<Json>, names: seq<string>)
    requires NameEntries(items, names)
    ensures NamesOf(items) == Success(seq(|names|, i requires 0 <= i < |names| => JString(names[i])))
  {
    if |items| > 0 {
      NamesOfNameEntries(items[1..], names[1..]);
      assert Subscript(items[0], "name") == Success(JString(names[0]));
      assert NamesOf(items) == Success([JString(names[0])] + NamesOf(items[1..]).value);
      var js := seq(|names|, i requires 0 <= i < |names| => JString(names[i]));
      assert js == [JString(names[0])] + seq(|names| - 1, i requires 0 <= i < |names| - 1 => JString(names[1..][i]));
    } else {
      assert |names| == 0;
      assert seq(|names|, i requires 0 <= i < |names| => JString(names[i])) == [];
      assert NamesOf(items) == Success([]);
    }
  }

  /** A first release event whose start date is a string of digits gives that
      year, whatever events follow it. */
  lemma YearFromStartDate(film: FilmPage, events: seq<Json>, event: seq<(string, Json)>, date: string)
    requires film.ldJson.JObject?
    requires Lookup(film.ldJson.members, "releasedEvent") == Some(JArray(events))
    requires |events| > 0 && events[0] == JObject(event)
    requires Lookup(event, "startDate") == Some(JString(date))
    requires |date| > 0 && AllDigits(date)
    ensures GetYear(film) == Success(Present(DigitsValue(date)))
  {
  }

  /** The film record scraped from one film page. */
  datatype FilmRecord = FilmRecord(id: int, title: string, year: Field<int>, director: Field<string>,
                                   actors: Field<string>, countries: Field<string>)

  /** One film page's record: the six getters in the order the scraper calls
      them, each filling its field; the first one that raises aborts the page
      with its error. */
  function ExtractFilm(film: FilmPage): (r: Result<FilmRecord, PyException>)
    ensures r.Success? <==> GetId(film).Success? && GetTitle(film).Success? && GetYear(film).Success?
                            && GetDirector(film).Success? && GetCast(film).Success? && GetCountry(film).Success?
    ensures r.Success? ==>
              r.value == FilmRecord(GetId(film).value, GetTitle(film).value, GetYear(film).value,
                                    GetDirector(film).value, GetCast(film).value, GetCountry(film).value)
    ensures GetId(film).Failure? ==> r == Failure(GetId(film).error)
    ensures GetId(film).Success? && GetTitle(film).Failure? ==> r == Failure(GetTitle(film).error)
    ensures (GetId(film).Success? && GetTitle(film).Success? && GetYear(film).Failure?)
              ==> r == Failure(GetYear(film).error)
    ensures (GetId(film).Success? && GetTitle(film).Success? && GetYear(film).Success? && GetDirector(film).Failure?)
              ==> r == Failure(GetDirector(film).error)
    ensures (GetId(film).Success? && GetTitle(film).Success? && GetYear(film).Success? && GetDirector(film).Success?
             && GetCast(film).Failure?) ==> r == Failure(GetCast(film).error)
    ensures (GetId(film).Success? && GetTitle(film).Success? && GetYear(film).Success? && GetDirector(film).Success?
             && GetCast(film).Success? && GetCountry(film).Failure?) ==> r == Failure(GetCountry(film).error)
  {
    var filmId :- GetId(film);
    var title :- GetTitle(film);
    var year :- GetYear(film);
    var director :- GetDirector(film);
    var cast :- GetCast(film);
    var country :- GetCountry(film);
    Success(FilmRecord(filmId, title, year, director, cast, country))
  }

  /** The `film_ids`, `titles`, `years`, `directors`, `actors` and `countries`
      dictionary of the scraped film pages. */
  datatype FilmData = FilmData(filmIds: seq<int>, titles: seq<string>, years: seq<Field<int>>,
                               directors: seq<Field<string>>, actors: seq<Field<string>>,
                               countries: seq<Field<string>>)

  /** Six parallel lists, one entry per page, entry `i` of each taken from
      page `i`'s film record. */
  predicate DescribesFilms(data: FilmData, records: seq<FilmRecord>) {
    && |data.filmIds| == |data.titles| == |data.years| == |records|
    && |data.directors| == |data.actors| == |data.countries| == |records|
    && forall i :: 0 <= i < |records| ==>
         && data.filmIds[i] == records[i].id && data.titles[i] == records[i].title
         && data.years[i] == records[i].year && data.directors[i] == records[i].director
         && data.actors[i] == records[i].actors && data.countries[i] == records[i].countries
  }

  /** Appending one record's fields to the six lists describes one more film. */
  lemma DescribesFilmsAppend(data: FilmData, records: seq<FilmRecord>, film: FilmRecord)
    requires DescribesFilms(data, records)
    ensures DescribesFilms(FilmData(data.filmIds + [film.id], data.titles + [film.title], data.years + [film.year],
                                    data.directors + [film.director], data.actors + [film.actors],
                                    data.countries + [film.countries]), records + [film])
  {
  }

  /** Records extracted from the pages one by one are the pages' records. */
  lemma PagesRecords(pages: seq<FilmPage>, records: seq<FilmRecord>)
    requires |records| == |pages|
    requires forall j :: 0 <= j < |pages| ==> ExtractFilm(pages[j]) == Success(records[j])
    ensures records == seq(|pages|, i requires 0 <= i < |pages| && ExtractFilm(pages[i]).Success? => ExtractFilm(pages[i]).value)
  {
  }

  /** Scrapes every film page in turn. It returns the six lists when every
      page yields a record, and otherwise raises the error of the first page
      that does not. */
  method ScrapeRemainingFilmData(filmSoups: seq<FilmPage>) returns (r: Result<FilmData, PyException>)
    ensures r.Success? <==> forall i :: 0 <= i < |filmSoups| ==> ExtractFilm(filmSoups[i]).Success?
    ensures r.Success? ==>
              DescribesFilms(r.value, seq(|filmSoups|, i requires 0 <= i < |filmSoups| && ExtractFilm(filmSoups[i]).Success? =>
                                                          ExtractFilm(filmSoups[i]).value))
    ensures r.Failure? ==> exists k :: 0 <= k < |filmSoups| && ExtractFilm(filmSoups[k]) == Failure(r.error)
                                       && forall j :: 0 <= j < k ==> ExtractFilm(filmSoups[j]).Success?
  {
    var filmIds, titles, years, directors, actors, countries := [], [], [], [], [], [];
    ghost var records: seq<FilmRecord> := [];
    for k := 0 to |filmSoups|
      invariant |records| == k
      invariant forall j :: 0 <= j < k ==> ExtractFilm(filmSoups[j]) == Success(records[j])
      invariant DescribesFilms(FilmData(filmIds, titles, years, directors, actors, countries), records)
    {
      var film :- ExtractFilm(filmSoups[k]);
      DescribesFilmsAppend(FilmData(filmIds, titles, years, directors, actors, countries), records, film);
      filmIds := filmIds + [film.id];
      titles := titles + [film.title];
      years := years + [film.year];
      directors := directors + [film.director];
      actors := actors + [film.actors];
      countries := countries + [film.countries];
      ghost var before := records;
      records := records + [film];
      forall j | 0 <= j < k + 1 ensures ExtractFilm(filmSoups[j]) == Success(records[j]) {
        if j < k {
          assert records[j] == before[j];
        }
      }
    }
    PagesRecords(filmSoups, records);
    r := Success(FilmData(filmIds, titles, years, directors, actors, countries));
  }
}
