/** `get_results_for` (bargein.py:33-63): one search request, then the rows of
    the returned page filtered and keyed by listing identifier. The network
    call and the HTML parser are outside the model: the fetch is a function
    from the request to a `Response`, and the page is already a sequence of
    `Row` records. */
module Page {
  import opened Wrappers
  import opened Format
  import opened Listing

  /** The search request: URL and query parameters, in the order written. */
  datatype Request = Request(url: string, params: seq<(string, string)>)

  /** One `li.result-row`: the `data-pid` attribute (`None` when the attribute
      is absent) and the text of the price, neighbourhood and title elements
      (`None` when the element is absent). */
  datatype Row = Row(pid: Option<string>, price: Option<string>, hood: Option<string>, title: Option<string>)

  /** What the transport returns: its truthiness, the final URL, and the rows
      the parser finds in the body. */
  datatype Response = Response(ok: bool, url: string, rows: seq<Row>)

  /** The outside world the program calls into: the HTTP fetch and `float()`. */
  datatype Env = Env(fetch: Request -> Response, toFloat: string -> Option<real>)

  function SearchUrl(config: Config, item: Item): string
  {
    "https://" + config.location + ".craigslist.org/search/" + item.section
  }

  function SearchRequest(config: Config, item: Item, term: string): (req: Request)
    ensures Lookup(req.params, "query") == Some(term)
  {
    Request(SearchUrl(config, item), [
      ("query", term),
      ("sort", "rel"),
      ("srchType", "T"),
      ("hasPic", config.hasPic),
      ("postedToday", config.postedToday),
      ("bundleDuplicates", "1"),
      ("search_distance", config.distance),
      ("postal", config.postal)])
  }

  /** The value of the first parameter named `key`. */
  function Lookup(params: seq<(string, string)>, key: string): Option<string>
  {
    if params == [] then None
    else if params[0].0 == key then Some(params[0].1)
    else Lookup(params[1..], key)
  }

  /** Different search terms make different requests, so the fetch may answer
      them differently. */
  lemma SearchRequestSeparatesTerms(config: Config, item: Item, t1: string, t2: string)
    requires SearchRequest(config, item, t1) == SearchRequest(config, item, t2)
    ensures t1 == t2
  {
    assert Lookup(SearchRequest(config, item, t1).params, "query") == Some(t1);
  }

  /** Python truthiness of the text `get_text` returned: present and non-empty. */
  predicate Filled(text: Option<string>)
  {
    text.Some? && text.value != ""
  }

  /** The row survives `if not price or not title or not data: continue`. */
  predicate Kept(row: Row)
  {
    Filled(row.price) && Filled(row.title) && Filled(row.pid)
  }

  /** The `ListedItem` built from a kept row. */
  function Listed(item: Item, term: string, toFloat: string -> Option<real>, row: Row): Result<ListedItem, Error>
    requires Kept(row)
  {
    NewListedItem(row.title.value, row.pid.value, row.price.value, row.hood, item, term, toFloat)
  }

  /** The row raises: it has no `data-pid`, or it is kept and its price text
      does not convert. */
  predicate Faulty(toFloat: string -> Option<real>, row: Row)
  {
    row.pid.None? || (Kept(row) && toFloat(PriceText(row.price.value)).None?)
  }

  /** The exception a faulty row raises. */
  function RowError(toFloat: string -> Option<real>, row: Row): Error
    requires Faulty(toFloat, row)
  {
    if row.pid.None? then MissingPid else BadPrice(PriceText(row.price.value))
  }

  /** One pass of the loop body over `results`. */
  function Step(item: Item, term: string, toFloat: string -> Option<real>,
                results: map<string, ListedItem>, row: Row): Result<map<string, ListedItem>, Error>
  {
    if row.pid.None? then Failure(MissingPid)
    else if !Kept(row) then Success(results)
    else match Listed(item, term, toFloat, row)
      case Failure(e) => Failure(e)
      case Success(li) => Success(results[row.pid.value := li])
  }

  /** The loop over the rows, as a function of the rows processed so far; the
      first raising row ends it. */
  function ParseRows(item: Item, term: string, toFloat: string -> Option<real>, rows: seq<Row>)
    : Result<map<string, ListedItem>, Error>
    decreases |rows|
  {
    if rows == [] then Success(map[])
    else match ParseRows(item, term, toFloat, rows[..|rows| - 1])
      case Failure(e) => Failure(e)
      case Success(results) => Step(item, term, toFloat, results, rows[|rows| - 1])
  }

  /** What `get_results_for` returns (or raises) for one query. */
  function PageResults(config: Config, env: Env, item: Item, term: string): Result<map<string, ListedItem>, Error>
  {
    var r := env.fetch(SearchRequest(config, item, term));
    if !r.ok then Success(map[]) else ParseRows(item, term, env.toFloat, r.rows)
  }

  /** The status line `get_results_for` prints for one query. */
  function FetchStatus(config: Config, env: Env, item: Item, term: string): string
  {
    var r := env.fetch(SearchRequest(config, item, term));
    StatusLine(r.ok, r.url)
  }

  /** `get_results_for(item, config, search_term)`: returns the status line it
      prints and the page's listings, or the error it raises. */
  method GetResultsFor(item: Item, config: Config, term: string, env: Env)
    returns (status: string, results: Result<map<string, ListedItem>, Error>)
    ensures status == FetchStatus(config, env, item, term)
    ensures results == PageResults(config, env, item, term)
    ensures !env.fetch(SearchRequest(config, item, term)).ok ==> results == Success(map[])
  {
    var r := env.fetch(SearchRequest(config, item, term));
    if !r.ok {
      status := StatusLine(false, r.url);
      return status, Success(map[]);
    }
    status := StatusLine(true, r.url);
    results := ParsePage(item, term, env.toFloat, r.rows);
  }

  /** The row loop of `get_results_for` (bargein.py:54-63): skip rows missing a
      price, a title or an identifier, raise on a row without `data-pid` or with
      an unconvertible price, and otherwise store the listing under its
      identifier, later rows overwriting earlier ones. */
  method ParsePage(item: Item, term: string, toFloat: string -> Option<real>, rows: seq<Row>)
    returns (results: Result<map<string, ListedItem>, Error>)
    ensures results == ParseRows(item, term, toFloat, rows)
  {
    var found: map<string, ListedItem> := map[];
    var i := 0;
    while i < |rows|
      invariant 0 <= i <= |rows|
      invariant ParseRows(item, term, toFloat, rows[..i]) == Success(found)
    {
      ParseRowsNext(item, term, toFloat, rows, i, found);
      var row := rows[i];
      if row.pid.None? {
        ParseFailureSticks(item, term, toFloat, rows, i + 1);
        return Failure(MissingPid);
      }
      var data := row.pid.value;
      if !Kept(row) {
        i := i + 1;
        continue;
      }
      var li := NewListedItem(row.title.value, data, row.price.value, row.hood, item, term, toFloat);
      if li.Failure? {
        ParseFailureSticks(item, term, toFloat, rows, i + 1);
        return Failure(li.error);
      }
      found := found[data := li.value];
      i := i + 1;
    }
    assert rows[..i] == rows;
    results := Success(found);
  }

  /** One more row: the loop body applied to what the rows so far gave. */
  lemma ParseRowsNext(item: Item, term: string, toFloat: string -> Option<real>,
                      rows: seq<Row>, i: nat, found: map<string, ListedItem>)
    requires i < |rows| && ParseRows(item, term, toFloat, rows[..i]) == Success(found)
    ensures ParseRows(item, term, toFloat, rows[..i + 1]) == Step(item, term, toFloat, found, rows[i])
  {
    assert rows[..i + 1][..i] == rows[..i];
  }

  /** Once a prefix of the rows raises, the whole page raises the same error. */
  lemma {:induction false} ParseFailureSticks(item: Item, term: string, toFloat: string -> Option<real>,
                                              rows: seq<Row>, k: nat)
    requires k <= |rows|
    requires ParseRows(item, term, toFloat, rows[..k]).Failure?
    ensures ParseRows(item, term, toFloat, rows) == ParseRows(item, term, toFloat, rows[..k])
    decreases |rows| - k
  {
    if k < |rows| {
      assert rows[..k + 1][..k] == rows[..k];
      ParseFailureSticks(item, term, toFloat, rows, k + 1);
    } else {
      assert rows[..k] == rows;
    }
  }

  /** `pid` is the identifier of a kept row at `i`, and no later kept row has it. */
  ghost predicate LastKeptAt(rows: seq<Row>, pid: string, i: int)
  {
    && 0 <= i < |rows|
    && Kept(rows[i]) && rows[i].pid.value == pid
    && forall j :: i < j < |rows| && Kept(rows[j]) ==> rows[j].pid.value != pid
  }

  /** The identifiers of the kept rows. */
  ghost function KeptPids(rows: seq<Row>): set<string>
  {
    set i | 0 <= i < |rows| && Kept(rows[i]) :: rows[i].pid.value
  }

  lemma KeptPidsSnoc(rows: seq<Row>)
    requires rows != []
    ensures KeptPids(rows) == KeptPids(rows[..|rows| - 1])
      + (if Kept(rows[|rows| - 1]) then {rows[|rows| - 1].pid.value} else {})
  {
    var init := rows[..|rows| - 1];
    forall pid | pid in KeptPids(rows)
      ensures pid in KeptPids(init) || (Kept(rows[|rows| - 1]) && pid == rows[|rows| - 1].pid.value)
    {
      var i :| 0 <= i < |rows| && Kept(rows[i]) && rows[i].pid.value == pid;
      if i < |init| { assert init[i] == rows[i]; }
    }
    forall pid | pid in KeptPids(init) ensures pid in KeptPids(rows) {
      var i :| 0 <= i < |init| && Kept(init[i]) && init[i].pid.value == pid;
      assert rows[i] == init[i];
    }
  }

  /** A page that parses holds exactly the identifiers of its kept rows. */
  lemma {:induction false} ParsedKeys(item: Item, term: string, toFloat: string -> Option<real>, rows: seq<Row>)
    requires ParseRows(item, term, toFloat, rows).Success?
    ensures ParseRows(item, term, toFloat, rows).value.Keys == KeptPids(rows)
    decreases |rows|
  {
    if rows != [] {
      var init, last := rows[..|rows| - 1], rows[|rows| - 1];
      var m := ParseRows(item, term, toFloat, init).value;
      assert ParseRows(item, term, toFloat, rows) == Step(item, term, toFloat, m, last);
      ParsedKeys(item, term, toFloat, init);
      KeptPidsSnoc(rows);
    }
  }

  /** Each identifier of a page that parses maps to the listing built from the
      last kept row with that identifier: a later row overwrites an earlier one. */
  lemma {:induction false} ParsedValues(item: Item, term: string, toFloat: string -> Option<real>, rows: seq<Row>)
    requires ParseRows(item, term, toFloat, rows).Success?
    ensures forall pid :: pid in ParseRows(item, term, toFloat, rows).value ==>
      exists i :: (LastKeptAt(rows, pid, i)
        && Listed(item, term, toFloat, rows[i]) == Success(ParseRows(item, term, toFloat, rows).value[pid]))
    decreases |rows|
  {
    if rows != [] {
      var init, last := rows[..|rows| - 1], rows[|rows| - 1];
      var m := ParseRows(item, term, toFloat, init).value;
      var m' := ParseRows(item, term, toFloat, rows).value;
      assert ParseRows(item, term, toFloat, rows) == Step(item, term, toFloat, m, last);
      ParsedValues(item, term, toFloat, init);
      forall pid | pid in m'
        ensures exists i :: (LastKeptAt(rows, pid, i)
          && Listed(item, term, toFloat, rows[i]) == Success(m'[pid]))
      {
        if Kept(last) && last.pid.value == pid {
          assert LastKeptAt(rows, pid, |rows| - 1);
        } else {
          var i :| LastKeptAt(init, pid, i) && Listed(item, term, toFloat, init[i]) == Success(m[pid]);
          LastKeptExtends(rows, pid, i);
        }
      }
    }
  }

  lemma LastKeptExtends(rows: seq<Row>, pid: string, i: int)
    requires rows != [] && LastKeptAt(rows[..|rows| - 1], pid, i)
    requires !(Kept(rows[|rows| - 1]) && rows[|rows| - 1].pid.value == pid)
    ensures LastKeptAt(rows, pid, i) && rows[i] == rows[..|rows| - 1][i]
  {
    var init := rows[..|rows| - 1];
    forall j | i < j < |rows| && Kept(rows[j]) ensures rows[j].pid.value != pid {
      if j < |init| { assert rows[j] == init[j]; }
    }
  }

  /** A page raises exactly when one of its rows is faulty, and it raises the
      error of the first faulty row. */
  lemma {:induction false} ParseFailsAtFirstFault(item: Item, term: string, toFloat: string -> Option<real>, rows: seq<Row>)
    ensures ParseRows(item, term, toFloat, rows).Failure? <==> exists i :: 0 <= i < |rows| && Faulty(toFloat, rows[i])
    ensures ParseRows(item, term, toFloat, rows).Failure? ==>
      exists i :: 0 <= i < |rows| && Faulty(toFloat, rows[i])
        && (forall j :: 0 <= j < i ==> !Faulty(toFloat, rows[j]))
        && ParseRows(item, term, toFloat, rows).error == RowError(toFloat, rows[i])
    decreases |rows|
  {
    if rows != [] {
      var init, last := rows[..|rows| - 1], rows[|rows| - 1];
      ParseFailsAtFirstFault(item, term, toFloat, init);
      if exists i :: 0 <= i < |init| && Faulty(toFloat, init[i]) {
        var i :| 0 <= i < |init| && Faulty(toFloat, init[i]);
        assert rows[i] == init[i];
        var f :| 0 <= f < |init| && Faulty(toFloat, init[f])
          && (forall j :: 0 <= j < f ==> !Faulty(toFloat, init[j]))
          && ParseRows(item, term, toFloat, init).error == RowError(toFloat, init[f]);
        assert rows[f] == init[f];
        assert forall j :: 0 <= j < f ==> rows[j] == init[j];
      } else {
        assert forall j :: 0 <= j < |init| ==> rows[j] == init[j];
        if Faulty(toFloat, last) {
          assert Faulty(toFloat, rows[|rows| - 1]);
        } else {
          forall i | 0 <= i < |rows| ensures !Faulty(toFloat, rows[i]) {
            if i < |init| { assert rows[i] == init[i]; }
          }
        }
      }
    }
  }

  /** Every listing of a page is keyed by its own identifier and records the
      item and the exact search term of the query that found it. */
  lemma PageRecordsQuery(config: Config, env: Env, item: Item, term: string)
    requires PageResults(config, env, item, term).Success?
    ensures forall pid :: pid in PageResults(config, env, item, term).value ==>
      var li := PageResults(config, env, item, term).value[pid];
      li.dataPid == pid && li.requestedBy == item && li.searchTerm == term && li.images == []
  {
    var r := env.fetch(SearchRequest(config, item, term));
    if r.ok {
      ParsedValues(item, term, env.toFloat, r.rows);
    }
  }

  /** A page of one kept row whose price converts holds just that listing. */
  lemma SingleRowParse(item: Item, term: string, toFloat: string -> Option<real>, row: Row)
    requires Kept(row) && Listed(item, term, toFloat, row).Success?
    ensures ParseRows(item, term, toFloat, [row]) == Success(map[row.pid.value := Listed(item, term, toFloat, row).value])
  {
    OneRowIsOneStep(item, term, toFloat, [row]);
    KeptRowStep(item, term, toFloat, row);
  }

  lemma OneRowIsOneStep(item: Item, term: string, toFloat: string -> Option<real>, rows: seq<Row>)
    requires |rows| == 1
    ensures ParseRows(item, term, toFloat, rows) == Step(item, term, toFloat, map[], rows[0])
  {
    assert rows[..0] == [];
  }

  lemma KeptRowStep(item: Item, term: string, toFloat: string -> Option<real>, row: Row)
    requires Kept(row) && Listed(item, term, toFloat, row).Success?
    ensures Step(item, term, toFloat, map[], row) == Success(map[row.pid.value := Listed(item, term, toFloat, row).value])
  {
    var li := Listed(item, term, toFloat, row).value;
    assert map[][row.pid.value := li] == map[row.pid.value := li];
  }
}
