/** `run` (bargein.py:75-80): every configured item, every search term of that
    item, one page each, merged into one dictionary with `dict.update`, so that
    the last page holding an identifier decides its listing. */
module Runner {
  import opened Wrappers
  import opened Listing
  import opened Terms
  import opened Page

  /** One (item, search term) pair, fetched once. */
  datatype Query = Query(item: Item, term: string)

  /** The queries of one item, in the order of its search terms. */
  function QueriesFor(item: Item): (qs: seq<Query>)
    ensures |qs| == |SearchTermsFor(item)|
    ensures forall j :: 0 <= j < |qs| ==> qs[j] == Query(item, SearchTermsFor(item)[j])
  {
    var terms := SearchTermsFor(item);
    seq(|terms|, j requires 0 <= j < |terms| => Query(item, terms[j]))
  }

  /** All queries of a run: item by item, and within an item term by term. */
  function QueriesOf(items: seq<Item>): seq<Query>
    decreases |items|
  {
    if items == [] then [] else QueriesOf(items[..|items| - 1]) + QueriesFor(items[|items| - 1])
  }

  /** The first item's queries all come before the rest of the run's. */
  lemma {:induction false} QueriesOfCons(item: Item, rest: seq<Item>)
    ensures QueriesOf([item] + rest) == QueriesFor(item) + QueriesOf(rest)
    decreases |rest|
  {
    if rest == [] {
      assert ([item] + rest)[..0] == [];
    } else {
      var all, init, last := [item] + rest, rest[..|rest| - 1], rest[|rest| - 1];
      assert QueriesOf(all) == QueriesOf([item] + init) + QueriesFor(last) by {
        assert all[..|all| - 1] == [item] + init;
        assert all[|all| - 1] == last;
      }
      assert QueriesOf(rest) == QueriesOf(init) + QueriesFor(last);
      QueriesOfCons(item, init);
      SeqAssoc(QueriesFor(item), QueriesOf(init), QueriesFor(last));
    }
  }

  lemma SeqAssoc<T>(a: seq<T>, b: seq<T>, c: seq<T>)
    ensures (a + b) + c == a + (b + c)
  {
  }

  /** The queries of the first `k` items start the run's queries. */
  lemma {:induction false} QueriesOfPrefix(items: seq<Item>, k: nat)
    requires k <= |items|
    ensures QueriesOf(items[..k]) <= QueriesOf(items)
    decreases |items|
  {
    if k < |items| {
      var init := items[..|items| - 1];
      assert init[..k] == items[..k];
      QueriesOfPrefix(init, k);
    } else {
      assert items[..k] == items;
    }
  }

  /** The page each query yields, as `get_results_for` returns it. */
  function Pages(config: Config, env: Env): Query -> Result<map<string, ListedItem>, Error>
  {
    (q: Query) => PageResults(config, env, q.item, q.term)
  }

  /** The status line each query prints. */
  function Statuses(config: Config, env: Env): Query -> string
  {
    (q: Query) => FetchStatus(config, env, q.item, q.term)
  }

  /** What a run has printed and holds: the status lines so far, and the
      merged listings or the error that ended the run. */
  datatype RunState = RunState(log: seq<string>, listings: Result<map<string, ListedItem>, Error>)

  /** The run over the queries `qs`, as a function of the queries done so far:
      each query prints its status line and its page is merged with `update`;
      the first page that raises ends the run. `page` and `status` stand for
      what one call of `get_results_for` returns and prints. */
  function RunQueries(page: Query -> Result<map<string, ListedItem>, Error>, status: Query -> string,
                      qs: seq<Query>): RunState
    decreases |qs|
  {
    if qs == [] then RunState([], Success(map[]))
    else
      var s := RunQueries(page, status, qs[..|qs| - 1]);
      var q := qs[|qs| - 1];
      if s.listings.Failure? then s
      else match page(q)
        case Failure(e) => RunState(s.log + [status(q)], Failure(e))
        case Success(found) => RunState(s.log + [status(q)], Success(s.listings.value + found))
  }

  /** `run(config)`: the status lines it prints and the listings dictionary
      whose values it returns, or the error it raises. */
  method Run(config: Config, env: Env) returns (log: seq<string>, listings: Result<map<string, ListedItem>, Error>)
    ensures RunState(log, listings) == RunQueries(Pages(config, env), Statuses(config, env), QueriesOf(config.items))
  {
    var items := config.items;
    ghost var page, status := Pages(config, env), Statuses(config, env);
    var found: map<string, ListedItem> := map[];
    log := [];
    var i := 0;
    while i < |items|
      invariant 0 <= i <= |items|
      invariant RunQueries(page, status, QueriesOf(items[..i])) == RunState(log, Success(found))
    {
      var item := items[i];
      ghost var done := QueriesOf(items[..i]);
      QueriesOfSnoc(items, i);
      var terms := SearchTermsFor(item);
      var j := 0;
      assert done + QueriesFor(item)[..j] == done;
      while j < |terms|
        invariant 0 <= j <= |terms|
        invariant RunQueries(page, status, done + QueriesFor(item)[..j]) == RunState(log, Success(found))
      {
        var line, results := GetResultsFor(item, config, terms[j], env);
        RunStep(page, status, done, QueriesFor(item), j);
        log := log + [line];
        if results.Failure? {
          RunEndsEarly(config, env, items, i, j);
          return log, Failure(results.error);
        }
        found := found + results.value;
        j := j + 1;
      }
      assert QueriesFor(item)[..j] == QueriesFor(item);
      i := i + 1;
    }
    assert items[..i] == items;
    listings := Success(found);
  }

  lemma QueriesOfSnoc(items: seq<Item>, i: nat)
    requires i < |items|
    ensures QueriesOf(items[..i + 1]) == QueriesOf(items[..i]) + QueriesFor(items[i])
  {
    assert items[..i + 1][..i] == items[..i];
  }

  /** One more query of the current item: the run's state after it. */
  lemma RunStep(page: Query -> Result<map<string, ListedItem>, Error>, status: Query -> string,
                done: seq<Query>, next: seq<Query>, j: nat)
    requires j < |next|
    requires RunQueries(page, status, done + next[..j]).listings.Success?
    ensures var s := RunQueries(page, status, done + next[..j]);
      RunQueries(page, status, done + next[..j + 1]) == match page(next[j])
        case Failure(e) => RunState(s.log + [status(next[j])], Failure(e))
        case Success(found) => RunState(s.log + [status(next[j])], Success(s.listings.value + found))
  {
    var qs := done + next[..j + 1];
    assert qs[..|qs| - 1] == done + next[..j];
  }

  /** The queries done up to item `i`, term `j`, start the run's queries. */
  lemma QueriesSoFarPrefix(items: seq<Item>, i: nat, j: nat)
    requires i < |items| && j <= |QueriesFor(items[i])|
    ensures QueriesOf(items[..i]) + QueriesFor(items[i])[..j] <= QueriesOf(items)
  {
    var done, next := QueriesOf(items[..i]), QueriesFor(items[i]);
    QueriesOfSnoc(items, i);
    QueriesOfPrefix(items, i + 1);
    PrefixOfConcat(done, next, j);
  }

  lemma PrefixOfConcat<T>(a: seq<T>, b: seq<T>, k: nat)
    requires k <= |b|
    ensures a + b[..k] <= a + b
  {
    assert (a + b)[..|a| + k] == a + b[..k];
  }

  /** A page that raises during item `i`, term `j`, ends the whole run there. */
  lemma RunEndsEarly(config: Config, env: Env, items: seq<Item>, i: nat, j: nat)
    requires i < |items| && j < |QueriesFor(items[i])|
    requires RunQueries(Pages(config, env), Statuses(config, env),
                        QueriesOf(items[..i]) + QueriesFor(items[i])[..j + 1]).listings.Failure?
    ensures RunQueries(Pages(config, env), Statuses(config, env), QueriesOf(items))
         == RunQueries(Pages(config, env), Statuses(config, env), QueriesOf(items[..i]) + QueriesFor(items[i])[..j + 1])
  {
    var qs, all := QueriesOf(items[..i]) + QueriesFor(items[i])[..j + 1], QueriesOf(items);
    QueriesSoFarPrefix(items, i, j + 1);
    assert all[..|qs|] == qs;
    RunFailureSticks(Pages(config, env), Statuses(config, env), all, |qs|);
  }

  /** Once a prefix of the queries raises, the run ends with that state. */
  lemma {:induction false} RunFailureSticks(page: Query -> Result<map<string, ListedItem>, Error>,
                                            status: Query -> string, qs: seq<Query>, k: nat)
    requires k <= |qs|
    requires RunQueries(page, status, qs[..k]).listings.Failure?
    ensures RunQueries(page, status, qs) == RunQueries(page, status, qs[..k])
    decreases |qs| - k
  {
    if k < |qs| {
      assert qs[..k + 1][..k] == qs[..k];
      RunFailureSticks(page, status, qs, k + 1);
    } else {
      assert qs[..k] == qs;
    }
  }

  /** Every page of the queries parses. */
  ghost predicate AllPagesParse(page: Query -> Result<map<string, ListedItem>, Error>, qs: seq<Query>)
  {
    forall i :: 0 <= i < |qs| ==> page(qs[i]).Success?
  }

  /** Some page holds `pid`. */
  ghost predicate FoundIn(page: Query -> Result<map<string, ListedItem>, Error>, qs: seq<Query>, pid: string)
  {
    exists i :: 0 <= i < |qs| && page(qs[i]).Success? && pid in page(qs[i]).value
  }

  /** Page `i` is the last page holding `pid`. */
  ghost predicate LastFoundAt(page: Query -> Result<map<string, ListedItem>, Error>, qs: seq<Query>, pid: string, i: int)
  {
    && 0 <= i < |qs|
    && page(qs[i]).Success? && pid in page(qs[i]).value
    && forall j :: i < j < |qs| && page(qs[j]).Success? ==> pid !in page(qs[j]).value
  }

  /** A run completes exactly when every page parses. */
  lemma {:induction false} RunSucceedsIff(page: Query -> Result<map<string, ListedItem>, Error>,
                                          status: Query -> string, qs: seq<Query>)
    ensures RunQueries(page, status, qs).listings.Success? <==> AllPagesParse(page, qs)
    decreases |qs|
  {
    if qs != [] {
      var init := qs[..|qs| - 1];
      RunSucceedsIff(page, status, init);
      assert forall i :: 0 <= i < |init| ==> init[i] == qs[i];
    }
  }

  /** A completed run holds exactly the identifiers found on any page. */
  lemma {:induction false} RunKeys(page: Query -> Result<map<string, ListedItem>, Error>,
                                   status: Query -> string, qs: seq<Query>)
    requires RunQueries(page, status, qs).listings.Success?
    ensures forall pid :: pid in RunQueries(page, status, qs).listings.value <==> FoundIn(page, qs, pid)
    decreases |qs|
  {
    if qs != [] {
      var init, q := qs[..|qs| - 1], qs[|qs| - 1];
      RunKeys(page, status, init);
      var m := RunQueries(page, status, init).listings.value;
      var last := page(q).value;
      assert RunQueries(page, status, qs).listings.value == m + last;
      forall pid ensures pid in m + last <==> FoundIn(page, qs, pid) {
        if FoundIn(page, init, pid) {
          var i :| 0 <= i < |init| && page(init[i]).Success? && pid in page(init[i]).value;
          assert init[i] == qs[i];
        }
        if FoundIn(page, qs, pid) {
          var i :| 0 <= i < |qs| && page(qs[i]).Success? && pid in page(qs[i]).value;
          if i < |init| { assert init[i] == qs[i]; }
        }
      }
    }
  }

  lemma LastFoundExtends(page: Query -> Result<map<string, ListedItem>, Error>, qs: seq<Query>, pid: string, i: int)
    requires qs != [] && LastFoundAt(page, qs[..|qs| - 1], pid, i)
    requires page(qs[|qs| - 1]).Success? && pid !in page(qs[|qs| - 1]).value
    ensures LastFoundAt(page, qs, pid, i) && qs[i] == qs[..|qs| - 1][i]
  {
    var init := qs[..|qs| - 1];
    forall j | i < j < |qs| && page(qs[j]).Success? ensures pid !in page(qs[j]).value {
      if j < |init| { assert qs[j] == init[j]; }
    }
  }

  /** In a completed run each identifier holds the listing from the last page
      that contained it: later queries overwrite earlier ones. */
  lemma {:induction false} RunLastPageWins(page: Query -> Result<map<string, ListedItem>, Error>,
                                           status: Query -> string, qs: seq<Query>)
    requires RunQueries(page, status, qs).listings.Success?
    ensures forall pid :: pid in RunQueries(page, status, qs).listings.value ==>
      exists i :: (LastFoundAt(page, qs, pid, i)
        && RunQueries(page, status, qs).listings.value[pid] == page(qs[i]).value[pid])
    decreases |qs|
  {
    if qs != [] {
      var init, q := qs[..|qs| - 1], qs[|qs| - 1];
      RunLastPageWins(page, status, init);
      var m := RunQueries(page, status, init).listings.value;
      var last := page(q).value;
      var m' := RunQueries(page, status, qs).listings.value;
      assert m' == m + last;
      forall pid | pid in m'
        ensures exists i :: (LastFoundAt(page, qs, pid, i) && m'[pid] == page(qs[i]).value[pid])
      {
        if pid in last {
          assert LastFoundAt(page, qs, pid, |qs| - 1);
        } else {
          var i :| LastFoundAt(page, init, pid, i) && m[pid] == page(init[i]).value[pid];
          LastFoundExtends(page, qs, pid, i);
        }
      }
    }
  }

  /** The status lines: one per query fetched, in order. A completed run fetched
      every query; an aborted one stopped right after the page that raised,
      whose error it reports, and every page before it parsed. */
  lemma {:induction false} RunLog(page: Query -> Result<map<string, ListedItem>, Error>,
                                  status: Query -> string, qs: seq<Query>)
    ensures |RunQueries(page, status, qs).log| <= |qs|
    ensures forall i :: 0 <= i < |RunQueries(page, status, qs).log| ==>
      RunQueries(page, status, qs).log[i] == status(qs[i])
    ensures RunQueries(page, status, qs).listings.Success? ==> |RunQueries(page, status, qs).log| == |qs|
    ensures RunQueries(page, status, qs).listings.Failure? ==>
      && 1 <= |RunQueries(page, status, qs).log|
      && page(qs[|RunQueries(page, status, qs).log| - 1]) == Failure(RunQueries(page, status, qs).listings.error)
      && AllPagesParse(page, qs[..|RunQueries(page, status, qs).log| - 1])
    decreases |qs|
  {
    if qs != [] {
      var init := qs[..|qs| - 1];
      RunLog(page, status, init);
      assert forall i :: 0 <= i < |init| ==> init[i] == qs[i];
      var s := RunQueries(page, status, init);
      if s.listings.Success? {
        RunSucceedsIff(page, status, init);
        assert qs[..|qs| - 1] == init;
      } else {
        var f := |s.log| - 1;
        assert qs[..f] == init[..f];
      }
    }
  }

  /** Every listing a run returns is keyed by its identifier and records the
      item and search term of one of the run's queries. */
  lemma RunRecordsQuery(config: Config, env: Env)
    requires RunQueries(Pages(config, env), Statuses(config, env), QueriesOf(config.items)).listings.Success?
    ensures var qs := QueriesOf(config.items);
      var m := RunQueries(Pages(config, env), Statuses(config, env), qs).listings.value;
      forall pid :: pid in m ==>
        m[pid].dataPid == pid && exists i :: 0 <= i < |qs| && m[pid].requestedBy == qs[i].item && m[pid].searchTerm == qs[i].term
  {
    var page, qs := Pages(config, env), QueriesOf(config.items);
    var m := RunQueries(page, Statuses(config, env), qs).listings.value;
    RunLastPageWins(page, Statuses(config, env), qs);
    forall pid | pid in m
      ensures m[pid].dataPid == pid
      ensures exists i :: 0 <= i < |qs| && m[pid].requestedBy == qs[i].item && m[pid].searchTerm == qs[i].term
    {
      var i :| LastFoundAt(page, qs, pid, i) && m[pid] == page(qs[i]).value[pid];
      PageRecordsQuery(config, env, qs[i].item, qs[i].term);
    }
  }

  /** A fetch that answers every request with the same single row. */
  ghost predicate AlwaysOneRow(env: Env, row: Row)
  {
    forall req :: env.fetch(req) == Response(true, req.url, [row])
  }

  /** One item with keywords bike, road, red; every page holds the row with
      identifier 100, price "$50" and title "Red Road Bike". The run returns
      that one listing, priced by the conversion of "50", recorded against the
      last of the four search terms. */
  lemma OneListingSeenByEveryTerm(config: Config, env: Env)
    requires |config.items| == 1 && config.items[0].terms == ["bike", "road", "red"]
    requires AlwaysOneRow(env, Row(Some("100"), Some("$50"), None, Some("Red Road Bike")))
    requires env.toFloat("50").Some?
    ensures RunQueries(Pages(config, env), Statuses(config, env), QueriesOf(config.items)).listings
         == Success(map["100" := ListedItem("Red Road Bike", "100", env.toFloat("50").value, None,
                                            config.items[0], "bike road red", [])])
  {
    var item := config.items[0];
    var page, status := Pages(config, env), Statuses(config, env);
    var price := env.toFloat("50").value;
    OneItemQueries(config.items);
    EveryPageHoldsRow(config, env);
    var qs := QueriesOf(config.items);
    assert OnlyPidOnEveryPage(page, qs, "100");
    LastTermWins(page, status, qs, "100");
  }

  /** The queries of the single item with three keywords, in order. */
  lemma OneItemQueries(items: seq<Item>)
    requires |items| == 1 && items[0].terms == ["bike", "road", "red"]
    ensures QueriesOf(items) == QueriesFor(items[0])
    ensures |QueriesOf(items)| == 4 && QueriesOf(items)[3] == Query(items[0], "bike road red")
  {
    assert items[..0] == [];
    assert QueriesOf(items) == QueriesOf([]) + QueriesFor(items[0]);
    ThreeKeywords(items[0]);
  }

  lemma EveryPageHoldsRow(config: Config, env: Env)
    requires AlwaysOneRow(env, Row(Some("100"), Some("$50"), None, Some("Red Road Bike")))
    requires env.toFloat("50").Some?
    ensures forall q: Query :: (Pages(config, env)(q)
         == Success(map["100" := ListedItem("Red Road Bike", "100", env.toFloat("50").value, None, q.item, q.term, [])]))
  {
    var row := Row(Some("100"), Some("$50"), None, Some("Red Road Bike"));
    PriceTextDropsOneDollar("50");
    forall q: Query
      ensures Pages(config, env)(q)
           == Success(map["100" := ListedItem("Red Road Bike", "100", env.toFloat("50").value, None, q.item, q.term, [])])
    {
      var req := SearchRequest(config, q.item, q.term);
      assert env.fetch(req) == Response(true, req.url, [row]);
      SingleRowParse(q.item, q.term, env.toFloat, row);
    }
  }

  /** Every page of `qs` parses and holds exactly the identifier `pid`. */
  ghost predicate OnlyPidOnEveryPage(page: Query -> Result<map<string, ListedItem>, Error>, qs: seq<Query>, pid: string)
  {
    forall i :: 0 <= i < |qs| ==> page(qs[i]).Success? && page(qs[i]).value.Keys == {pid}
  }

  /** When every page holds exactly one listing under `pid`, the run's result is
      the listing from the last query. */
  lemma LastTermWins(page: Query -> Result<map<string, ListedItem>, Error>, status: Query -> string,
                     qs: seq<Query>, pid: string)
    requires qs != [] && OnlyPidOnEveryPage(page, qs, pid)
    ensures RunQueries(page, status, qs).listings == Success(map[pid := page(qs[|qs| - 1]).value[pid]])
  {
    RunSucceedsIff(page, status, qs);
    var m := RunQueries(page, status, qs).listings.value;
    OnlyPidKept(page, status, qs, pid);
    LastPageValue(page, status, qs, pid);
    SingletonMap(m, pid, page(qs[|qs| - 1]).value[pid]);
  }

  lemma OnlyPidKept(page: Query -> Result<map<string, ListedItem>, Error>, status: Query -> string,
                    qs: seq<Query>, pid: string)
    requires qs != [] && OnlyPidOnEveryPage(page, qs, pid)
    requires RunQueries(page, status, qs).listings.Success?
    ensures RunQueries(page, status, qs).listings.value.Keys == {pid}
  {
    var m := RunQueries(page, status, qs).listings.value;
    RunKeys(page, status, qs);
    assert pid in page(qs[0]).value;
    assert FoundIn(page, qs, pid);
    forall k | k in m ensures k == pid {
      var i :| 0 <= i < |qs| && page(qs[i]).Success? && k in page(qs[i]).value;
    }
  }

  lemma LastPageValue(page: Query -> Result<map<string, ListedItem>, Error>, status: Query -> string,
                      qs: seq<Query>, pid: string)
    requires qs != [] && OnlyPidOnEveryPage(page, qs, pid)
    requires RunQueries(page, status, qs).listings.Success?
    requires pid in RunQueries(page, status, qs).listings.value
    ensures RunQueries(page, status, qs).listings.value[pid] == page(qs[|qs| - 1]).value[pid]
  {
    var m := RunQueries(page, status, qs).listings.value;
    RunLastPageWins(page, status, qs);
    var i :| LastFoundAt(page, qs, pid, i) && m[pid] == page(qs[i]).value[pid];
  }

  lemma SingletonMap<K, V>(m: map<K, V>, k: K, v: V)
    requires m.Keys == {k} && m[k] == v
    ensures m == map[k := v]
  {
  }
}
