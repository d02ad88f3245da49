# bargein — a verified model of the search-and-merge core

`bargein.py` searches Craigslist for configured items. For each item it expands
the item's keywords into search terms. It runs one search per term and parses the
result rows into listings keyed by listing identifier. It merges every page into
one dictionary. Each request prints a status line with the URL cut to 60
characters.

This project models that deterministic core in Dafny:

- `PyStr`: the Python string behaviour the program relies on. A slice bound may
  be negative or past the end, and `sep.join` is included.
- `Format`: `trail`, the fetch status line built from it, and the space padding
  of the report's fields.
- `Listing`: the configuration records, the `ListedItem` record, the `$`-prefix
  strip that picks the text handed to `float`, and `get_link`.
- `Terms`: `get_search_terms_for`, as strictly increasing index tuples of size 2
  up to `min(L, 3)` in `itertools.combinations` order, mapped to space-joined
  keywords.
- `Page`: `get_results_for`. It builds the search request and turns the rows of
  the page into a map. Rows with a missing or empty price or title, or an empty
  identifier, are skipped. A row without `data-pid` raises. An unconvertible price raises. A
  later row overwrites an earlier one with the same identifier.
- `Runner`: `run`. It visits item by item and term by term, merging each page
  with `dict.update`. The first page that raises ends the run.

The outside world is a parameter, `Env`:

- `fetch` maps a request to its response: truthiness, final URL, and the rows
  the HTML parser would find.
- `toFloat` is Python's `float`, returning `None` where `float` raises.

The exceptions raised inside the modelled code become `Result` values. `MissingPid` stands for the `KeyError` on
`li["data-pid"]`. `BadPrice(text)` stands for the `ValueError` from `float`.
What the program prints is returned instead, as the status line of each request
and the log of a run.

The loops of `get_results_for` and `run` are methods with `while` loops. Each
method is proved equal to a function over the prefix processed so far:
`ParseRows` for the row loop and `RunQueries` for the merge loop. The properties
are proved as lemmas about those functions.

`ListedItem` is a datatype. Its constructor stores its arguments, with the price
converted by `float` after a leading `$` is dropped, and it may raise
(`Listing.NewListedItem`). The program never changes a listing afterwards.

Two places where the code does something one might not expect:

- The report's price field is `{:<7}`, which is left-aligned. It is not
  right-aligned.
- "No duplicate terms" holds for the index tuples (`Terms.IndexTuplesDistinct`).
  It does not hold for the strings: a repeated keyword repeats a term
  (`Terms.RepeatedKeywordRepeatsTerm`).

## Model

| member | source | states |
|---|---|---|
| `PyStr.SliceIndex` | bargein.py:10 | a slice bound lands in `0..len`; a non-negative bound is clipped to the length |
| `PyStr.SliceTo` | bargein.py:10 | `s[:k]`: the prefix of `s` whose length is the clipped bound |
| `PyStr.SliceFrom` | bargein.py:10 | `s[k:]`: the suffix of `s` after the clipped bound |
| `PyStr.Join` | bargein.py:72 | `sep.join(words)`: empty for no words, the word itself for one, otherwise it starts with the first word followed by `sep`; two words give `w0 + sep + w1` and three give `w0 + sep + w1 + sep + w2` |
| `PyStr.SlicesRejoin` | bargein.py:10 | `s[:k] + s[k:] == s` for every bound, negative ones included |
| `Format.Trail` | bargein.py:9-10 | for `n >= len(ending)`, a string of at most `n - len(ending)` characters is returned unchanged; a longer one becomes `s[:n-len(ending)] + ending`, exactly `n` long; the result is never longer than `n` |
| `Format.TrailIdempotent` | bargein.py:9-10 | truncating a truncated string changes nothing |
| `Format.TrailCutsNearWidth` | bargein.py:9-10 | with `n = 60`, every string of 58 to 60 characters, which already fits, is still rewritten to its first 57 characters plus `"..."`, 60 long |
| `Format.TrailBelowEndingWidth` | bargein.py:9-10 | a width below the ending's length counts the cut from the end: `trail("abcdef", 2) == "abcde..."` |
| `Format.StatusLine` | bargein.py:45-49 | the line starts with the success or failure marker; the URL part is at most 60 characters; a URL of at most 57 characters appears whole; a longer URL appears as its first 57 characters followed by `"..."` |
| `Format.FetchMarker` | bargein.py:45-49 | the `"[SUCCESS] [FETCH] "` and `"[   FAIL] [FETCH] "` prefixes; they differ, so the line tells the outcome (`StatusLineTellsOutcome`) |
| `Format.StatusLineTellsOutcome` | bargein.py:45-49 | a success line never equals a failure line |
| `Format.Spaces` | bargein.py:27 | `k` spaces |
| `Format.RightAlign` | bargein.py:27-29 | a `{:>w}` field: length `max(w, len(s))`, `s` at the end, spaces before it, never cut |
| `Format.LeftAlign` | bargein.py:27 | a `{:<w}` field: length `max(w, len(s))`, `s` at the start, spaces after it, never cut |
| `Listing.ListedItem.Link` | bargein.py:23-24 | the link for a location reads back as exactly the listing's identifier |
| `Listing.LinkDeterminesPid` | bargein.py:23-24 | two listings with the same link in one location have the same identifier |
| `Listing.LinkShape` | bargein.py:23-24 | the link is `"https://" + location + ".craigslist.org/sys/" + data_pid + ".html"`, part by part |
| `Listing.PriceText` | bargein.py:17 | exactly one character is dropped when the text starts with `$`, none otherwise, and the rest is a suffix of the text |
| `Listing.PriceTextDropsOneDollar` | bargein.py:17 | only the first `$` is dropped |
| `Listing.PriceTextExamples` | bargein.py:17 | `"$12.50"` and `"12.50"` both convert `"12.50"`; `"$$5"` converts `"$5"` |
| `Listing.NewListedItem` | bargein.py:14-21 | building succeeds exactly when the stripped price converts; on failure the error carries the stripped text; on success the listing holds the arguments, the converted price and no images |
| `Terms.LexLessIrreflexive` | bargein.py:71 | no tuple comes before itself |
| `Terms.Prepend` | bargein.py:71 | puts one index in front of every tuple, keeping count and order |
| `Terms.CombosAscending` | bargein.py:71 | every combination of size `r` is strictly increasing within the index range |
| `Terms.CombosComplete` | bargein.py:71 | every strictly increasing tuple in the range is produced |
| `Terms.CombosSorted` | bargein.py:71 | combinations come out in strictly increasing lexicographic order |
| `Terms.CombosCount` | bargein.py:71 | there are `C(n - lo, r)` combinations |
| `Terms.ChooseOne` | bargein.py:71 | `C(m, 1) == m` |
| `Terms.ChooseTwo` | bargein.py:71 | `2 * C(m, 2) == m(m-1)` |
| `Terms.ChooseThree` | bargein.py:71 | `6 * C(m, 3) == m(m-1)(m-2)` |
| `Terms.Combos` | bargein.py:71 | `combinations(range(lo, n), r)`; its properties are the `Combos*` lemmas |
| `Terms.MaxSize` | bargein.py:68 | `min(L, 3)`: at most 3 and at most `L`; `L` itself when `L <= 3`, and 3 when `L > 3` |
| `Terms.TuplesFrom` | bargein.py:70-71 | the combinations of each size `r..hi`, size by size; its properties are the `TuplesFrom*` lemmas |
| `Terms.IndexTuples` | bargein.py:70-71 | the index tuples of sizes 2 to `min(L, 3)`; its properties are `SearchTermsEnumerate`, `IndexTuplesCount` and `IndexTuplesDistinct` |
| `Terms.TuplesFromAscending` | bargein.py:70-71 | every tuple over sizes `r..hi` ascends and has a size in that range |
| `Terms.TuplesFromComplete` | bargein.py:70-71 | every ascending tuple with a size in `r..hi` is produced |
| `Terms.TuplesFromOrdered` | bargein.py:70-71 | smaller tuples come first, and equal sizes come in lexicographic order |
| `Terms.OrderedConcat` | bargein.py:70-71 | one size in lexicographic order followed by larger sizes in order stays in order |
| `Terms.IndexTuplesCount` | bargein.py:68-71 | `L` keywords give `C(L,2)` tuples, plus `C(L,3)` when `L >= 3` |
| `Terms.Pick` | bargein.py:71-72 | the keywords at the indices of a tuple, in order |
| `Terms.SearchTermsFor` | bargein.py:66-72 | `get_search_terms_for` collected into a sequence; its properties are `SearchTermsEnumerate` and the examples |
| `Terms.SearchTermsEnumerate` | bargein.py:66-72 | the term count is `C(L,2) (+ C(L,3))`; there are none for `L < 2`; every tuple has size 2 or 3 even for `L > 3` and ascends; term `i` joins the keywords of tuple `i`; every ascending tuple of size 2 or 3 is produced; size-2 terms come before size-3 terms, lexicographically within a size |
| `Terms.IndexTuplesDistinct` | bargein.py:70-71 | no index tuple is produced twice |
| `Terms.IndexTuplesOfThree` | bargein.py:70-71 | three keywords give `[0,1], [0,2], [1,2], [0,1,2]` |
| `Terms.ThreeKeywords` | bargein.py:66-72 | `bike road red` gives `"bike road", "bike red", "road red", "bike road red"`, in that order |
| `Terms.PicksOfThree` | bargein.py:71-72 | the keyword picks for the three-keyword example |
| `Terms.JoinExamples` | bargein.py:72 | single-space joins of the example tuples |
| `Terms.RepeatedKeywordRepeatsTerm` | bargein.py:66-72 | keywords `x x x` give four terms, the first two both `"x x"` |
| `Page.SearchUrl` | bargein.py:34 | `"https://" + location + ".craigslist.org/search/" + section` |
| `Page.SearchRequest` | bargein.py:34-43 | the request's `query` parameter is the search term |
| `Page.SearchRequestSeparatesTerms` | bargein.py:34-43 | different terms give different requests |
| `Page.Filled` | bargein.py:52-59 | the Python truthiness of the text `get_text` returns: present and non-empty |
| `Page.Listed` | bargein.py:61 | the `ListedItem(title, data, price, location, item, search_term)` call for a kept row, through `NewListedItem` |
| `Page.Kept` | bargein.py:59-60 | a row is kept exactly when its price, title and identifier are all present and non-empty |
| `Page.Step` | bargein.py:54-61 | one pass of the row loop: a row without `data-pid` raises, an unkept row leaves the map, a kept row stores its listing or raises its price error |
| `Page.ParseRows` | bargein.py:54-61 | the row loop over a prefix of the rows; its properties are `ParsedKeys`, `ParsedValues`, `ParseFailsAtFirstFault` and `ParseFailureSticks` |
| `Page.PageResults` | bargein.py:33-63 | what `get_results_for` returns: an empty map for a falsy response, otherwise the row loop over the page |
| `Page.FetchStatus` | bargein.py:45-49 | the status line printed for the response to the query's request |
| `Page.GetResultsFor` | bargein.py:33-63 | returns the status line printed for the response, the page's listings or the error it raises, and an empty map when the fetch fails |
| `Page.ParsePage` | bargein.py:51-63 | the row loop returns what `ParseRows` gives for all the rows |
| `Page.ParseRowsNext` | bargein.py:54-61 | one more row applies the loop body to the map built so far |
| `Page.ParseFailureSticks` | bargein.py:54-61 | once a prefix of the rows raises, the whole page raises the same error |
| `Page.KeptPidsSnoc` | bargein.py:59-61 | the kept identifiers grow by the last row's identifier when that row is kept |
| `Page.ParsedKeys` | bargein.py:54-61 | a page that parses holds exactly the identifiers of rows with non-empty price, title and identifier |
| `Page.ParsedValues` | bargein.py:54-61 | each identifier maps to the listing built from the last kept row with that identifier |
| `Page.LastKeptExtends` | bargein.py:61 | a row that does not store `pid` leaves the last row storing it unchanged |
| `Page.ParseFailsAtFirstFault` | bargein.py:54-61 | a page raises exactly when some row lacks `data-pid` or is kept with an unconvertible price, and it raises the first such row's error |
| `Page.PageRecordsQuery` | bargein.py:61 | every listing of a page is keyed by its own identifier and records the requesting item, the exact search term and no images |
| `Page.SingleRowParse` | bargein.py:54-61 | a page of one kept, convertible row holds just that listing |
| `Page.OneRowIsOneStep` | bargein.py:54-61 | a single row is one pass of the loop body from the empty map |
| `Page.KeptRowStep` | bargein.py:61 | a kept, convertible row stores its listing under its identifier |
| `Runner.QueriesFor` | bargein.py:78 | an item's queries are its search terms, in order |
| `Runner.QueriesOf` | bargein.py:77-78 | all queries of a run, item by item and term by term; its properties are `QueriesOfCons`, `QueriesOfPrefix` and `QueriesOfSnoc` |
| `Runner.RunQueries` | bargein.py:77-79 | the merge loop over a prefix of the queries; its properties are `RunSucceedsIff`, `RunKeys`, `RunLastPageWins` and `RunLog` |
| `Runner.QueriesOfCons` | bargein.py:77-78 | the first item's queries come before all later items' queries |
| `Runner.QueriesOfPrefix` | bargein.py:77-78 | the queries of the first `k` items start the run's queries |
| `Runner.Run` | bargein.py:75-80 | the status lines printed and the merged listings or the raised error are those of `RunQueries` over item-then-term order |
| `Runner.QueriesOfSnoc` | bargein.py:77-78 | one more item appends its queries |
| `Runner.RunStep` | bargein.py:79 | one more query prints its status line and merges its page with `update`, or ends the run with its error |
| `Runner.QueriesSoFarPrefix` | bargein.py:77-78 | the queries done so far start the run's queries |
| `Runner.RunEndsEarly` | bargein.py:79 | a page that raises ends the whole run with that state |
| `Runner.RunFailureSticks` | bargein.py:79 | once a prefix of the queries raises, nothing later changes the result |
| `Runner.RunSucceedsIff` | bargein.py:75-80 | a run completes exactly when every page parses |
| `Runner.RunKeys` | bargein.py:79 | the final identifiers are the union of all pages' identifiers |
| `Runner.LastFoundExtends` | bargein.py:79 | a page without `pid` leaves the last page holding `pid` unchanged |
| `Runner.RunLastPageWins` | bargein.py:77-79 | each identifier holds the listing from the last page, in item-then-term order, that contained it |
| `Runner.RunLog` | bargein.py:45-79 | one status line per query fetched, in order; a completed run fetched every query; an aborted run stops right after the page that raised, whose error it returns, and every earlier page parsed |
| `Runner.RunRecordsQuery` | bargein.py:61-79 | every listing of a completed run is keyed by its identifier and records the item and search term of one of the run's queries |
| `Runner.OneListingSeenByEveryTerm` | bargein.py:61-79 | one item `bike road red` whose every page holds listing `100` at `$50`: the run returns that one listing, priced by the conversion of `"50"`, recorded against the last term `"bike road red"` |
| `Runner.OneItemQueries` | bargein.py:77-78 | a single item with three keywords gives four queries, the last for `"bike road red"` |
| `Runner.EveryPageHoldsRow` | bargein.py:54-61 | when every fetch answers with the same single row, every page holds just that listing under the query's item and term |
| `Runner.LastTermWins` | bargein.py:79 | when every page holds only `pid`, the run holds the last page's listing for it |
| `Runner.OnlyPidKept` | bargein.py:79 | when every page holds only `pid`, the run holds only `pid` |
| `Runner.LastPageValue` | bargein.py:79 | when every page holds `pid`, the run keeps the last page's listing for it |

## Left out

- Transport exceptions from `requests.get` (bargein.py:34-43) are not represented. A refused connection or a timeout would end the whole run without a status line for that query, but `fetch` always answers with a response and `Error` has no case for it.
- The HTTP request (`requests.get`, bargein.py:34-43) is not modelled as I/O. `fetch` is a deterministic function from the request to a `Response`, and the response's truthiness and final URL are fields of it.
- BeautifulSoup (bargein.py:54-58) is not modelled. A page arrives as a sequence of `Row` records, each with the `data-pid` attribute and the price, neighbourhood and title texts, any of which may be absent.
- `float` (bargein.py:17) is the opaque `toFloat`, which returns a `real` or reports the `ValueError`. Floating-point rounding, NaN and infinities are not represented.
- `get_report` (bargein.py:26-30) is not modelled as a whole line, because it formats a Python float with `{:<7}`. Only its space padding is modelled (`Format.RightAlign`, `Format.LeftAlign`).
- `listings.values()` (bargein.py:80) is not modelled: its order is the dictionary's and is not a contract. `Run` returns the dictionary itself.
- The `__main__` block (bargein.py:83-90) is left out: JSON config loading, printing the report and `print_exc`. The configuration is the `Config` record. An uncaught exception ends a run as a `Failure` value, and status lines are returned as a log instead of printed.
- The configuration's filter values (`has_pic`, `posted_today`, `distance`, `postal`) are kept as the text that ends up in the request. The program passes them through without looking at them.
- `ListedItem.images` (bargein.py:21) is always empty, since the program never passes it.
