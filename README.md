# letterboxd_scraper in Dafny

A model of the reconciliation core of letterboxd_scraper. The scraper reads a
Letterboxd playlist (a user's list or their "rated" films). It scrapes every
listing page for film ids, owner ratings and film URLs. It works out which
listed films the table already stored in object storage lacks, and scrapes
those films' pages for title, year, director, cast and countries. It then
rebuilds the table: the fresh ratings joined on film id with the stored film
data plus the new film data, sorted by year and then title.

Modules, one per source file:

- `Wrappers`: `Option`, `Result`, and the Python exceptions the code can
  raise (`PyException`). It also has `Field`, the value-or-missing marker
  that stands for `np.nan`.
- `PyStr`: the parts of Python's `str` the code relies on.
  - `str.replace` for one character.
  - `str(int)` and `int(str)`.
  - `';'.join` and splitting.
- `EnumsClasses`: the `ParallelTechnique` enum.
- `ArgparseUtils`: the `--soupification` validator.
- `StringUtils`: user name and playlist title from the URL's capturing groups.
- `Metadata`: the playlist metadata dictionary.
- `S3Utils`: the storage key of a playlist's table.
- `LetterboxdScraping`: pagination, page URLs, flattening, listing-page and
  film-page scraping.
  - Parsed HTML is an abstract input: a listing page is its film elements plus
    their rating attributes.
  - A film page is its film element plus its decoded ld+json value.
  - The two scraping loops (`ScrapeIdsRatingsAndUrls`,
    `ScrapeRemainingFilmData`) are methods with loops. Each is proved against
    the function that specifies it.
- `DataWrangling`: the table operations. A data frame is a sequence of rows,
  and column renames are the identity.
  - `GetNewRecords` is a method with a loop, proved against `UnknownUrls`.
  - Merge keeps pandas' inner-join order: ratings order first, then film-table
    order.
  - The sort is a stable sort on (year, title). A missing year sorts last.
- `Pipeline`: the table operations composed in the order of the entry point.
  A stored table is dropped when `--overwrite` is `"true"`. The delta of URLs
  is scraped. The final table is the ratings table joined with the stored film
  data plus the new film data, then sorted. This is a composition of the
  operations of `utils/data_wrangling_utils.py`. It is not the entry point's own `create_final_dataframe`,
  which is not part of this model.

Where the code and its documentation differ, the model follows the code.

- `get_title` has no fallback for a missing `name`: it raises KeyError.
- `get_all_capturing_groups` applies `str` to each group. The optional third
  group therefore reads `"None"` when it did not take part in the match.
- `pd.DataFrame` of lists of different lengths raises ValueError, so
  `GetRatingsDataframe` and `GetFilmDataDataframe` return that error.
- The entry point calls `get_url_for_each_page`, `get_new_records`,
  `get_s3_key`, `scrape_ids_ratings_and_urls` and `scrape_remaining_film_data`
  with keyword arguments these functions do not take. The model follows the
  functions as defined in `utils/`.

## Model

| member | source | states |
|---|---|---|
| ArgparseUtils.FormatSoupificationArgument | utils/argparse_utils.py:4-12 | accepted exactly for "multiprocessing", "multithreading" and "synchronous" (case-sensitive); the technique returned has that string as its value; every other string raises ValueError |
| ArgparseUtils.FormatSoupificationRoundTrip | utils/argparse_utils.py:4-10 | every technique's value maps back to that technique |
| ArgparseUtils.FormatSoupificationInjective | utils/argparse_utils.py:5-10 | distinct accepted strings give distinct techniques |
| StringUtils.GetAllCapturingGroups | utils/string_utils.py:7-10 | a matching URL gives exactly four groups, the second the user and the fourth the title, and the optional third reads "None" when it did not take part in the match; no match raises AttributeError |
| StringUtils.GetUsername | utils/string_utils.py:13-15 | the second group with each "-" turned into "_" and every other character kept: same length, no "-" left |
| StringUtils.GetUsernameIdempotent | utils/string_utils.py:13-15 | normalising an already normalised user name changes nothing |
| StringUtils.GetPlaylistTitle | utils/string_utils.py:18-23 | "rated" becomes "ratings"; any other last group has each "-" turned into "_"; no result contains "-" |
| StringUtils.GetPlaylistTitleIdempotent | utils/string_utils.py:18-23 | normalising an already normalised title changes nothing, in both branches |
| PyStr.ReplaceChar | utils/string_utils.py:15 | `str.replace` of one character: same length, each occurrence replaced, every other character kept |
| PyStr.ReplaceCharRemovesAll | utils/string_utils.py:15 | after the replacement no "-" is left, and replacing again changes nothing |
| PyStr.ReplaceCharFixedPoint | utils/string_utils.py:20-23 | a string whose replacement equals a string containing no "_" already was that string, so a replaced title is "rated" only when the group was |
| PyStr.ParseInt | utils/letterboxd_scraping_functions.py:26 | `int(text)` succeeds exactly on non-empty digit strings; any other text raises ValueError |
| PyStr.NatToString | utils/letterboxd_scraping_functions.py:34 | `str(k)` is a non-empty digit string with no leading zero |
| PyStr.ParseIntNatToString | utils/letterboxd_scraping_functions.py:26-34 | `int(str(n)) == n` for every non-negative `n` |
| PyStr.NatToStringInjective | utils/letterboxd_scraping_functions.py:34 | different page numbers print differently |
| PyStr.Join | utils/letterboxd_scraping_functions.py:113 | `';'.join` of no names is empty and of one name is that name |
| PyStr.SplitJoin | utils/letterboxd_scraping_functions.py:112-113 | splitting the `';'`-joined names at ";" gives the names back when none of them contains ";" |
| S3Utils.GetS3Key | utils/s3_utils.py:49-51 | the key starts with the user and a "/", holds the title right after it and ends with ".csv"; its length is the two lengths plus 5 |
| S3Utils.S3KeyDecomposes | utils/s3_utils.py:51 | when the user has no "/", the text before the key's first "/" is the user and the text up to ".csv" is the title |
| S3Utils.S3KeyInjective | utils/s3_utils.py:51 | two playlists whose users have no "/" share a key only when user and title agree |
| LetterboxdScraping.GetNumberOfPages | utils/letterboxd_scraping_functions.py:24-28 | no pagination items gives 1 page, otherwise `int` of the last item's text (with its ValueError) |
| LetterboxdScraping.NumberOfPagesFromLastItem | utils/letterboxd_scraping_functions.py:24-26 | a last pagination item reading n gives n pages |
| LetterboxdScraping.GetUrlForEachPage | utils/letterboxd_scraping_functions.py:31-34 | exactly `number_of_pages` URLs, none when the count is not positive; URL k is the playlist URL + "/page/" + k + "/" |
| LetterboxdScraping.PageUrlNumber | utils/letterboxd_scraping_functions.py:33-34 | the page number reads back out of every page URL |
| LetterboxdScraping.PageUrlsDistinct | utils/letterboxd_scraping_functions.py:31-34 | no two page URLs coincide |
| LetterboxdScraping.UnnestList | utils/letterboxd_scraping_functions.py:37-39 | the flattened length is the sum of the inner lengths |
| LetterboxdScraping.UnnestListAt | utils/letterboxd_scraping_functions.py:37-39 | element j of inner list i sits right after the elements of the lists before it, so flattening keeps order |
| LetterboxdScraping.UnnestListAppend | utils/letterboxd_scraping_functions.py:37-39 | flattening a concatenation concatenates the flattenings |
| LetterboxdScraping.TotalLengthSameShape | utils/letterboxd_scraping_functions.py:37-39 | nested lists with the same inner lengths flatten to the same length |
| LetterboxdScraping.GetIds | utils/letterboxd_scraping_functions.py:42-45 | one id per film element, in page order: id i is element i's `data-film-id` |
| LetterboxdScraping.GetRatings | utils/letterboxd_scraping_functions.py:48-55 | when every poster element has an owner rating, those ratings in page order; when one lacks it (`int(None)` raises TypeError), the ratings of the fallback spans |
| LetterboxdScraping.GetFilmUrls | utils/letterboxd_scraping_functions.py:58-61 | one URL per film element, in page order: "https://letterboxd.com" followed by element i's slug |
| LetterboxdScraping.IdsAndUrlsAligned | utils/letterboxd_scraping_functions.py:42-61 | ids and URLs come from the same film elements: equal length, position i of each from element i, every URL starting with "https://letterboxd.com" |
| LetterboxdScraping.PagesIds | utils/letterboxd_scraping_functions.py:69-71 | one id list per page |
| LetterboxdScraping.PagesRatings | utils/letterboxd_scraping_functions.py:69-72 | one rating list per page |
| LetterboxdScraping.PagesUrls | utils/letterboxd_scraping_functions.py:69-73 | one URL list per page |
| LetterboxdScraping.ScrapeIdsRatingsAndUrls | utils/letterboxd_scraping_functions.py:64-79 | each of ids, ratings and urls is the page-order concatenation of the per-page lists |
| LetterboxdScraping.ScrapedListsSameLength | utils/letterboxd_scraping_functions.py:64-79 | the scraped ids and URLs have equal length, and the ratings too when each page yields as many ratings as ids |
| LetterboxdScraping.ScrapedListsPageOrder | utils/letterboxd_scraping_functions.py:69-79 | scraping pages a then pages b lists a's films before b's, in all three lists |
| LetterboxdScraping.Lookup | utils/letterboxd_scraping_functions.py:94 | a key is absent exactly when no member has it; otherwise the value is that of the last member with the key |
| LetterboxdScraping.Subscript | utils/letterboxd_scraping_functions.py:94-102 | subscripting succeeds exactly on an object holding the key, with the key's value; it raises KeyError exactly when an object lacks the key, and TypeError on any other value |
| LetterboxdScraping.NamesOf | utils/letterboxd_scraping_functions.py:112 | succeeds exactly when every element's `name` can be read; then entry i is element i's name; otherwise it raises the error of the first element whose lookup fails |
| LetterboxdScraping.NameStrings | utils/letterboxd_scraping_functions.py:113 | the text of each string name, one per name, in order |
| LetterboxdScraping.JoinNames | utils/letterboxd_scraping_functions.py:113 | joining succeeds exactly when every name is a string, and gives their texts joined by ";"; otherwise it raises TypeError |
| LetterboxdScraping.CatchKeyError | utils/letterboxd_scraping_functions.py:103-104 | a KeyError becomes the missing marker, a value is kept as present, any other error propagates |
| LetterboxdScraping.AbsentKeyGivesMissing | utils/letterboxd_scraping_functions.py:90-137 | an absent "releasedEvent", "director", "actors" or "countryOfOrigin" gives the missing marker, while an absent "name" raises KeyError |
| LetterboxdScraping.GetId | utils/letterboxd_scraping_functions.py:86-88 | the `data-film-id` of the page's film element; a page without one raises AttributeError |
| LetterboxdScraping.GetTitle | utils/letterboxd_scraping_functions.py:90-94 | succeeds exactly when the decoded object has a string `name`, and returns it; KeyError exactly when the object has no `name`; no other error than KeyError or TypeError |
| LetterboxdScraping.GetYear | utils/letterboxd_scraping_functions.py:96-104 | an object without "releasedEvent" gives the missing marker; any error raised is TypeError, IndexError or ValueError, never KeyError |
| LetterboxdScraping.GetDirector | utils/letterboxd_scraping_functions.py:106-115 | an object without "director" gives the missing marker; any error raised is TypeError |
| LetterboxdScraping.GetCast | utils/letterboxd_scraping_functions.py:117-126 | an object without "actors" gives the missing marker; any error raised is TypeError |
| LetterboxdScraping.GetCountry | utils/letterboxd_scraping_functions.py:128-137 | an object without "countryOfOrigin" gives the missing marker; any error raised is TypeError |
| LetterboxdScraping.JoinedNamesInOrder | utils/letterboxd_scraping_functions.py:106-137 | under a key holding a list of objects with string names (and any other members), the field is those names joined by ";" in list order, which split back into the names when none contains ";" |
| LetterboxdScraping.NamesOfNameEntries | utils/letterboxd_scraping_functions.py:112 | the `name` of each object with a string name is that string, in order |
| LetterboxdScraping.YearFromStartDate | utils/letterboxd_scraping_functions.py:96-102 | in any non-empty list of release events, a first event whose start date is a digit string gives that number as the year, whatever follows it |
| LetterboxdScraping.ExtractFilm | utils/letterboxd_scraping_functions.py:145-152 | a page yields a record exactly when all six getters succeed, and the record holds their six values; otherwise the error of the first getter that fails, in call order |
| LetterboxdScraping.DescribesFilmsAppend | utils/letterboxd_scraping_functions.py:154-159 | appending one record's six fields to the six lists describes one more film |
| LetterboxdScraping.PagesRecords | utils/letterboxd_scraping_functions.py:145-159 | records extracted page by page are the pages' records, in page order |
| LetterboxdScraping.ScrapeRemainingFilmData | utils/letterboxd_scraping_functions.py:140-169 | succeeds exactly when every page yields a record; then entry i of each of the six lists comes from page i; otherwise it raises the error of the first failing page |
| DataWrangling.RowIds | utils/data_wrangling_utils.py:16 | the `id` column, row by row |
| DataWrangling.RatingIds | utils/data_wrangling_utils.py:33 | the `id` column of the ratings table, row by row |
| DataWrangling.FilmIds | utils/data_wrangling_utils.py:39 | the `id` column of the film table, row by row |
| DataWrangling.FirstIndex | utils/data_wrangling_utils.py:16 | the position of the first occurrence of an id |
| DataWrangling.FirstIndexOfPrefix | utils/data_wrangling_utils.py:16 | first occurrences in a prefix are first occurrences in the whole column |
| DataWrangling.GetFilmIdsInCurrentDf | utils/data_wrangling_utils.py:14-16 | no duplicates; an id is in it exactly when it is in the id column; ids in order of first appearance |
| DataWrangling.Unique | utils/data_wrangling_utils.py:16 | `unique()`: no duplicates, the same members, first-appearance order |
| DataWrangling.UniqueFirstIndices | utils/data_wrangling_utils.py:16 | appending an element keeps earlier first occurrences, and a new element first occurs at the end |
| DataWrangling.FirstIndexOfNewLast | utils/data_wrangling_utils.py:16 | an element absent from the column before it first occurs at its own position |
| DataWrangling.Zip | utils/data_wrangling_utils.py:23 | `zip` pairs ids and URLs up to the shorter length |
| DataWrangling.UnknownUrls | utils/data_wrangling_utils.py:22-25 | at most one URL per zipped pair, each carried by some pair |
| DataWrangling.GetNewRecords | utils/data_wrangling_utils.py:19-27 | the loop returns the URLs of the zipped pairs whose id is not known, in listing order |
| DataWrangling.UnknownUrlsMembers | utils/data_wrangling_utils.py:22-27 | a URL is returned exactly when some pair carries it with an unknown id |
| DataWrangling.UnknownUrlsNoneKnown | utils/data_wrangling_utils.py:22-27 | with no known id every zipped URL is returned, in order |
| DataWrangling.UnknownUrlsAllKnown | utils/data_wrangling_utils.py:22-27 | when every id is known nothing is returned |
| DataWrangling.NewRecordsBounds | utils/data_wrangling_utils.py:22-27 | against no known ids the result is the zipped prefix of the URLs; when all listed ids are known it is empty |
| DataWrangling.GetRatingsDataframe | utils/data_wrangling_utils.py:30-33 | one row per listed film in listing order with its id and rating, the URL dropped; lists of different lengths raise ValueError |
| DataWrangling.GetFilmDataDataframe | utils/data_wrangling_utils.py:36-39 | row i gathers entry i of the six lists; lists of different lengths raise ValueError |
| DataWrangling.FilmDataRoundTrip | utils/data_wrangling_utils.py:36-39 | the lists scraped from some film records turn back into exactly those records |
| DataWrangling.GetAllColumnsExceptRatings | utils/data_wrangling_utils.py:53-55 | same row count, order and ids; restoring each row's rating gives the stored row back, so only the rating is removed |
| DataWrangling.AppendNewRecords | utils/data_wrangling_utils.py:58-61 | the stored rows followed by the new rows; lengths and ids add up |
| DataWrangling.MatchesOf | utils/data_wrangling_utils.py:45 | the joined rows of one ratings row are exactly its merges with the film rows of the same id |
| DataWrangling.InnerJoin | utils/data_wrangling_utils.py:42-45 | every joined row merges a ratings row and a film row of the same id, and every such pair is joined |
| DataWrangling.KeepIn | utils/data_wrangling_utils.py:45 | the ids kept are exactly those in both lists, unique when the first list is |
| DataWrangling.RowIdsAppend | utils/data_wrangling_utils.py:45 | the ids of concatenated tables are the concatenated ids |
| DataWrangling.MatchesOfUnique | utils/data_wrangling_utils.py:45 | with unique film ids a ratings row is joined once when its id has film data and not at all otherwise |
| DataWrangling.NoMatchWithoutId | utils/data_wrangling_utils.py:45 | a ratings row whose id has no film data is dropped |
| DataWrangling.MatchesOfStrict | utils/data_wrangling_utils.py:45 | with unique film ids a ratings row is joined at most once |
| DataWrangling.JoinIdsKeepRatingsOrder | utils/data_wrangling_utils.py:42-45 | with unique film ids the joined ids are the ratings ids with film data, in ratings order |
| DataWrangling.JoinIdsUnique | utils/data_wrangling_utils.py:42-45 | when both tables have unique ids the join does too, and its ids are exactly the shared ones |
| DataWrangling.TitleLeTotal | utils/data_wrangling_utils.py:50 | any two titles are ordered one way or the other |
| DataWrangling.RowLeTotal | utils/data_wrangling_utils.py:50 | any two rows are ordered one way or the other by (year, title) |
| DataWrangling.Insert | utils/data_wrangling_utils.py:50 | inserting into a sorted table keeps it sorted and adds exactly that row |
| DataWrangling.SortByYearAndTitle | utils/data_wrangling_utils.py:48-50 | a permutation of the rows, each row not after the next by year (missing years last) and then title |
| DataWrangling.SortSortedIsIdentity | utils/data_wrangling_utils.py:48-50 | sorting an already sorted table leaves it unchanged |
| DataWrangling.SortIdempotent | utils/data_wrangling_utils.py:48-50 | sorting twice is sorting once |
| DataWrangling.RowCountsAtMostOne | utils/data_wrangling_utils.py:50 | in a table with unique ids no row occurs twice |
| DataWrangling.UniqueTail | utils/data_wrangling_utils.py:50 | dropping the first row of a table with unique ids keeps them unique, and that row does not occur again |
| DataWrangling.SortedTail | utils/data_wrangling_utils.py:50 | the rows after the first of a sorted table are sorted, and the first may precede the second |
| DataWrangling.SortedCons | utils/data_wrangling_utils.py:50 | a row that may precede the first row of a sorted table can go in front of it |
| DataWrangling.SortKeepsIds | utils/data_wrangling_utils.py:48-50 | an id is in the sorted table exactly when it is in the table |
| DataWrangling.SortKeepsUniqueIds | utils/data_wrangling_utils.py:48-50 | sorting a table with unique ids gives a table with unique ids |
| Pipeline.EffectiveSnapshot | main.py:60 | overwriting ("true") drops the stored table; any other value keeps it |
| Pipeline.KnownIds | main.py:60-64 | the ids of the stored table, without duplicates; none when there is no stored table |
| Pipeline.DeltaUrls | main.py:62-64 | at most one URL per listed film, each one of the listed URLs |
| Pipeline.DeltaWithoutSnapshot | main.py:60-64 | without a stored table, or when overwriting, every listed URL is scraped again |
| Pipeline.DeltaAgainstSnapshot | main.py:60-64 | against a stored table exactly the URLs of listed films it lacks are scraped |
| Pipeline.DetailTable | main.py:84-87 | without a stored table the new film data; otherwise the stored rows without their rating (restoring it gives each stored row back) followed by the new film data, ids concatenated |
| Pipeline.DetailTableUnique | main.py:84-87 | stored film data and new film data with unique, disjoint ids give film data with unique ids |
| Pipeline.ComposedTable | main.py:84-87 | the final table exists exactly when the listing's three lists have equal length |
| Pipeline.SortedJoinRowOrigin | main.py:84-87 | a row of the sorted join merges a ratings row and a film row of the same id |
| Pipeline.ComposedTableFromListing | main.py:60-87 | the final table is sorted; its ids are all freshly listed, so a film no longer listed is dropped; each row carries a listed rating of its id and, apart from it, a row of film data |
| Pipeline.ListedRowOrigin | main.py:84-87 | one row of the final table: a listed id and rating, plus film data |
| Pipeline.ComposedTableUnique | main.py:84-87 | with unique listed and film-data ids the final ids are unique and are exactly the listed ids with film data |
| Pipeline.ComposedTableFreshRatings | main.py:84-87 | with unique listed ids every row carries the freshly listed rating, whatever the stored table held |

## Left out

- Network and parsing I/O are not modelled: HTTP fetching, the thread and process pools and asyncio (`utils/generic_scraping_functions.py`), BeautifulSoup, `json.loads` and the CDATA stripping. Pages are abstract inputs instead.
- The `Bucket` class in `utils/s3_utils.py` is not modelled: it reads and writes object storage through boto3. A stored table is a parameter, and its absence is `None`.
- The regular expression in `utils/string_utils.py` is not modelled. A match is an abstract `UrlMatch` with its four groups, or `None`.
- `get_ratings`' fallback regex over the rated spans is not modelled. The ratings it yields are an input of the listing page.
- `Playlist.get_playlist_metadata` is not modelled: its page count comes from a network fetch. The metadata dictionary is a datatype built by the caller.
- `cast_id_and_year_as_numeric` is not modelled: `pd.to_numeric` parsing may produce floats.
- The entry point's CLI parsing, logging and timing are not modelled. Only its overwrite rule appears, in `Pipeline.EffectiveSnapshot`.
- The `@time_it` decorator is not modelled. It makes `scrape_ids_ratings_and_urls` and `scrape_remaining_film_data` return a pair of the result and the elapsed time; `ScrapeIdsRatingsAndUrls` and `ScrapeRemainingFilmData` return only the result, since the time comes from a clock.
- `create_final_dataframe` is not part of this model. The composition in `Pipeline` uses only `get_film_ids_in_current_df`, `get_new_records`, `get_ratings_dataframe`, `get_all_columns_except_ratings_from_current_dataframe`, `append_new_records_to_current_dataframe`, `inner_join_two_dataframes_on_film_id` and `sort_dataframe_by_year_and_title`, all from `utils/data_wrangling_utils.py`.
- The `ParsingTechnique` enum and `format_parsing_argument` are not modelled: the argument validator modelled is the soupification one.
- `utils/time_utils.py`, `utils/logging_utils.py`, `utils/config.py` and `utils/database_utils.py` are not modelled: clocks, logging, environment variables and a database.
- `np.nan` is the `Missing` marker, not a float.
- JSON values are limited to strings, integers, arrays and objects. Floats, booleans and null are not modelled.
- PyStr.ParseInt: only Python's `int` of a plain string of ASCII digits is modelled. Signs, surrounding whitespace, underscores between digits and non-ASCII Unicode decimal digits, which `int` also accepts, are treated like any other non-digit text and give ValueError.
- A film element without a `data-film-id` or `data-film-slug` attribute is not modelled. The scraper would raise TypeError for it, and the model gives every film element both attributes.
- `get_id` on a film page without the lazy-load element is modelled as AttributeError.
- LetterboxdScraping.GetUrlForEachPage: the model assumes a playlist URL without braces. The source calls `.format` on the URL joined with "/page/{}/", so a brace in the URL is read as part of the format: `{{` becomes `{`, a named field raises KeyError, a second `{}` raises IndexError and a lone brace raises ValueError. The model appends the page part as plain text.
- LetterboxdScraping.GetIds: a film element's `data-film-id` is taken as an already parsed integer. A non-numeric attribute, for which `int` raises ValueError, is not modelled.
- LetterboxdScraping.GetRatings: a poster's `data-owner-rating` is taken as an already parsed integer, or as absent. A non-numeric attribute is not modelled: `int` raises ValueError there, which `get_ratings` does not catch, so it would not fall back to the rated spans.
- LetterboxdScraping.GetId: the film element's `data-film-id` is taken as an already parsed integer. A non-numeric attribute, for which `int` raises ValueError, is not modelled.
- LetterboxdScraping.GetTitle: a `name` that is present but not a string raises TypeError in the model. The source would return that value as the title; the model's titles are strings only.
- `sort_values` on two columns sorts with a stable lexicographic sort, so rows with equal year and title keep their input order; `DataWrangling.SortByYearAndTitle` does the same.
- DataWrangling.InnerJoin: its contract says which rows are joined, not how often or in what order. The order of the joined ids, when film ids are unique, is stated by `DataWrangling.JoinIdsKeepRatingsOrder`.
