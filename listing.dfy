/** The configuration records and the `ListedItem` record (bargein.py:13-24). */
module Listing {
  import opened Wrappers

  /** One configured item: category, keyword list and a label. */
  datatype Item = Item(section: string, terms: seq<string>, name: string)

  /** The run's configuration. The four filter values are passed through to the
      search request untouched; they are kept as the text that ends up in the URL. */
  datatype Config = Config(
    location: string,
    hasPic: string,
    postedToday: string,
    distance: string,
    postal: string,
    items: seq<Item>)

  /** The exceptions that abort a run: `li["data-pid"]` on a row without the
      attribute (a `KeyError`), and `float(...)` on text that is not a number
      (a `ValueError`, carrying the text that was handed to `float`). */
  datatype Error = MissingPid | BadPrice(text: string)

  /** A listing found by one query. Its fields are set once, when it is built,
      and never changed afterwards, so it is a value. `price` is whatever the
      opaque conversion returned for the price text. */
  datatype ListedItem = ListedItem(
    name: string,
    dataPid: string,
    price: real,
    location: Option<string>,
    requestedBy: Item,
    searchTerm: string,
    images: seq<string>)
  {
    /** `get_link`: the listing's canonical URL. */
    function Link(config: Config): (url: string)
      ensures PidOfLink(config.location, url) == Some(dataPid)
    {
      LinkPrefix(config.location) + dataPid + LinkSuffix
    }
  }

  function LinkPrefix(location: string): string
  {
    "https://" + location + ".craigslist.org/sys/"
  }

  const LinkSuffix := ".html"

  /** Reads the listing identifier back out of a link for `location`, or
      `None` when the text is not such a link. */
  function PidOfLink(location: string, url: string): Option<string>
  {
    var p := LinkPrefix(location);
    if |url| >= |p| + |LinkSuffix| && url[..|p|] == p && url[|url| - |LinkSuffix|..] == LinkSuffix
    then Some(url[|p|..|url| - |LinkSuffix|])
    else None
  }

  /** Two listings in one location share a link only if they share an identifier. */
  lemma LinkDeterminesPid(config: Config, a: ListedItem, b: ListedItem)
    requires a.Link(config) == b.Link(config)
    ensures a.dataPid == b.dataPid
  {
    assert Some(a.dataPid) == PidOfLink(config.location, a.Link(config));
  }

  /** The link is the fixed template with the location and the identifier filled in. */
  lemma LinkShape(config: Config, li: ListedItem)
    ensures var url := li.Link(config);
      && url[..8] == "https://"
      && url[8..8 + |config.location|] == config.location
      && url[8 + |config.location|..28 + |config.location|] == ".craigslist.org/sys/"
      && url[28 + |config.location|..|url| - 5] == li.dataPid
      && url[|url| - 5..] == ".html"
  {
  }

  /** The text handed to `float`: one leading `'$'` is dropped, anything else is
      kept whole. Python indexes `price[0]`, so the text must not be empty; the
      only caller has already skipped rows with empty price text. */
  function PriceText(price: string): (t: string)
    requires |price| > 0
    ensures |price| - |t| == if price[0] == '$' then 1 else 0
    ensures t == price[|price| - |t|..]
  {
    if price[0] != '$' then price else price[1..]
  }

  /** Exactly one `'$'` is dropped, even when the text has several. */
  lemma PriceTextDropsOneDollar(rest: string)
    ensures PriceText("$" + rest) == rest
  {
  }

  lemma PriceTextExamples()
    ensures PriceText("$12.50") == "12.50"
    ensures PriceText("12.50") == "12.50"
    ensures PriceText("$$5") == "$5"
  {
  }

  /** `ListedItem.__init__`: records its arguments, converting the price with
      the opaque `toFloat`; a conversion that fails raises, which is `Failure`. */
  function NewListedItem(
    name: string, dataPid: string, price: string, location: Option<string>,
    requestedBy: Item, searchTerm: string, toFloat: string -> Option<real>): (r: Result<ListedItem, Error>)
    requires |price| > 0
    ensures r.Success? <==> toFloat(PriceText(price)).Some?
    ensures r.Failure? ==> r.error == BadPrice(PriceText(price))
    ensures r.Success? ==> r.value == ListedItem(name, dataPid, toFloat(PriceText(price)).value,
                                                 location, requestedBy, searchTerm, [])
  {
    match toFloat(PriceText(price))
    case None => Failure(BadPrice(PriceText(price)))
    case Some(x) => Success(ListedItem(name, dataPid, x, location, requestedBy, searchTerm, []))
  }
}
