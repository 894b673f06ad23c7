/** What each retailer crawler in app/crawler/crawler.py extracts from one
    fetched page. The HTML and its XPath selectors are replaced by the values
    the selectors return: an element's field is None where `xpath(...)[0]`
    would raise IndexError. */
module Listings {
  import opened Wrappers
  import opened Text
  import opened Distinct
  import opened Collect

  /** One accumulator row, columns in the DataFrame's order. */
  datatype Listing = Listing(title: string, manufacturer: string, eshop: string, url: string, price: real)

  /** The exceptions a crawl can raise: IndexError on a missing field,
      ValueError from float() on a price text, ValueError from the DataFrame
      constructor on columns of unequal length. */
  datatype CrawlError = MissingField | BadPrice(text: string) | LengthMismatch

  /** The rows one page contributes and the item count its continuation test
      compares with the full-page size. */
  datatype PageRows = PageRows(rows: seq<Listing>, count: nat)

  /** The manufacturer keys the Eurovaistine and Benu crawlers search for. */
  const ManufacturerKeys: seq<string> :=
    ["uriage", "bioderma", "filorga", "vichy", "avene", "la roche-posay", "svr", "apivita"]

  /** The manufacturer keys the Herba crawler searches for. */
  const HerbaKeys: seq<string> := ["uriage", "apivita"]

  const EurovaistineName: string := "Eurovaistine"
  const BenuName: string := "Benu"
  const HerbaName: string := "Herba"

  /** Every row names the given eshop and one of the given manufacturers. */
  predicate Tagged(rows: seq<Listing>, eshop: string, manufacturers: seq<string>) {
    forall i :: 0 <= i < |rows| ==> rows[i].eshop == eshop && rows[i].manufacturer in manufacturers
  }

  /** The manufacturer names the crawlers write for a list of keys. */
  function Capitalized(keys: seq<string>): (r: seq<string>)
    ensures |r| == |keys| && forall i :: 0 <= i < |keys| ==> r[i] == Capitalize(keys[i])
  {
    if keys == [] then [] else [Capitalize(keys[0])] + Capitalized(keys[1..])
  }

  // ---------------------------------------------------------------- Eurovaistine

  /** A product card: link, title, current price and struck-through price. */
  datatype EuroCard = EuroCard(url: Option<string>, title: Option<string>, price: Option<string>, struck: Option<string>)

  /** The price text used for a card: the cleaned current price, or the
      cleaned struck-through price when the current one cleans to nothing. */
  function EuroPriceText(c: EuroCard): (r: Option<string>)
    requires c.price.Some?
    ensures CleanPrice(c.price.value) != [] ==> r == Some(CleanPrice(c.price.value))
    ensures CleanPrice(c.price.value) == [] ==> r == if c.struck.Some? then Some(CleanPrice(c.struck.value)) else None
  {
    var current := CleanPrice(c.price.value);
    if current != [] then Some(current)
    else if c.struck.Some? then Some(CleanPrice(c.struck.value))
    else None
  }

  /** The row for one card. The fields are read in the order link, title,
      price, struck price; a missing one raises, and so does a price text that
      float() rejects, the empty text included. */
  function EuroListing(key: string, c: EuroCard): (r: Result<Listing, CrawlError>)
    ensures r.Ok? ==> r.value.eshop == EurovaistineName && r.value.manufacturer == Capitalize(key)
  {
    if c.url.None? || c.title.None? || c.price.None? then Err(MissingField)
    else match EuroPriceText(c)
      case None => Err(MissingField)
      case Some(text) =>
        match ParseDecimal(text)
        case None => Err(BadPrice(text))
        case Some(p) => Ok(Listing(Strip(c.title.value), Capitalize(key), EurovaistineName, c.url.value, p))
  }

  /** A card yields a row exactly when it has a link, a title, a price and a
      usable price text that parses; the row's title is stripped, its
      manufacturer the capitalised key and its price the parsed text. A card
      whose current and struck prices both clean to nothing raises. */
  lemma EuroListingSpec(key: string, c: EuroCard)
    ensures EuroListing(key, c).Ok? <==>
      c.url.Some? && c.title.Some? && c.price.Some? && EuroPriceText(c).Some? && ParseDecimal(EuroPriceText(c).value).Some?
    ensures EuroListing(key, c).Ok? ==>
      EuroListing(key, c).value == Listing(Strip(c.title.value), Capitalize(key), EurovaistineName,
                                           c.url.value, ParseDecimal(EuroPriceText(c).value).value)
    ensures (c.url.Some? && c.title.Some? && c.price.Some? && CleanPrice(c.price.value) == [] && c.struck.Some?
             && CleanPrice(c.struck.value) == []) ==> EuroListing(key, c) == Err(BadPrice([]))
  {
  }

  /** The element step of CrawlerEurovaistine.crawl for one search key. */
  function EuroStep(key: string): EuroCard -> Result<Listing, CrawlError> {
    c => EuroListing(key, c)
  }

  /** A page scraped element by element: one row per element, in page
      order, or the error of the first element that raises; the count
      compared with the full-page size is the number of elements. */
  function ElementPage<C>(step: C -> Result<Listing, CrawlError>, elements: seq<C>): Result<PageRows, CrawlError> {
    match MapAll(step, elements)
    case Err(e) => Err(e)
    case Ok(rows) => Ok(PageRows(rows, |elements|))
  }

  /** A Eurovaistine page. */
  function EuroPage(key: string, cards: seq<EuroCard>): Result<PageRows, CrawlError> {
    ElementPage(EuroStep(key), cards)
  }

  /** The rows of a page are the cards' rows, all tagged with the eshop and
      the capitalised key; a page fails exactly when one of its cards does. */
  lemma EuroPageSpec(key: string, cards: seq<EuroCard>)
    ensures EuroPage(key, cards).Ok? <==> forall i :: 0 <= i < |cards| ==> EuroListing(key, cards[i]).Ok?
    ensures EuroPage(key, cards).Ok? ==>
      && EuroPage(key, cards).value.count == |cards| == |EuroPage(key, cards).value.rows|
      && (forall i :: 0 <= i < |cards| ==> EuroPage(key, cards).value.rows[i] == EuroListing(key, cards[i]).value)
      && Tagged(EuroPage(key, cards).value.rows, EurovaistineName, [Capitalize(key)])
  {
    MapAllSpec(EuroStep(key), cards);
    if EuroPage(key, cards).Ok? {
      var rows := EuroPage(key, cards).value.rows;
      forall i | 0 <= i < |rows|
        ensures rows[i].eshop == EurovaistineName && rows[i].manufacturer in [Capitalize(key)]
      {
        assert EuroStep(key)(cards[i]).Ok?;
      }
    }
  }

  // ------------------------------------------------------------------------ Benu

  /** A product card: link, title and price. */
  datatype BenuCard = BenuCard(url: Option<string>, title: Option<string>, price: Option<string>)

  /** One element of the Benu loop on the accumulator: a card without a link
      or with a price that cleans to nothing is skipped; a missing title or
      price raises, as does a price float() rejects; otherwise the row is
      appended and the accumulator deduplicated. */
  function BenuStep(key: string, c: BenuCard, acc: seq<Listing>): (r: Result<seq<Listing>, CrawlError>)
    ensures c.url.None? ==> r == Ok(acc)
    ensures c.url.Some? && c.title.Some? && c.price.Some? && CleanPrice(c.price.value) == [] ==> r == Ok(acc)
    ensures c.url.Some? && (c.title.None? || c.price.None?) ==> r == Err(MissingField)
    ensures r.Ok? && r.value != acc ==>
      c.url.Some? && c.title.Some? && c.price.Some? && ParseDecimal(CleanPrice(c.price.value)).Some?
      && r.value == Dedup(acc + [Listing(Strip(c.title.value), Capitalize(key), BenuName, c.url.value,
                                         ParseDecimal(CleanPrice(c.price.value)).value)])
  {
    if c.url.None? then Ok(acc)
    else if c.title.None? || c.price.None? then Err(MissingField)
    else
      var text := CleanPrice(c.price.value);
      if text == [] then Ok(acc)
      else match ParseDecimal(text)
        case None => Err(BadPrice(text))
        case Some(p) => Ok(Dedup(acc + [Listing(Strip(c.title.value), Capitalize(key), BenuName, c.url.value, p)]))
  }

  /** The Benu element loop over one page, from accumulator `acc`. */
  function BenuCards(key: string, cards: seq<BenuCard>, acc: seq<Listing>): Result<seq<Listing>, CrawlError>
  {
    if cards == [] then Ok(acc)
    else match BenuStep(key, cards[0], acc)
      case Err(e) => Err(e)
      case Ok(a) => BenuCards(key, cards[1..], a)
  }

  /** Skipped cards do not stop the loop: cards without a link contribute
      nothing, and the remaining cards are processed exactly as if they had
      not been there. */
  lemma {:induction false} BenuSkipsUnlinked(key: string, cards: seq<BenuCard>, acc: seq<Listing>)
    ensures BenuCards(key, cards, acc) == BenuCards(key, Linked(cards), acc)
  {
    if cards != [] {
      BenuSkipsUnlinked(key, cards[1..], if cards[0].url.None? then acc else BenuStep(key, cards[0], acc).GetOk(acc));
      if cards[0].url.None? {
        assert Linked(cards) == Linked(cards[1..]);
      } else {
        assert Linked(cards) == [cards[0]] + Linked(cards[1..]);
        assert Linked(cards)[1..] == Linked(cards[1..]);
      }
    }
  }

  function Linked(cards: seq<BenuCard>): (r: seq<BenuCard>)
    ensures |r| <= |cards|
    ensures forall i :: 0 <= i < |r| ==> r[i].url.Some? && r[i] in cards
  {
    if cards == [] then []
    else if cards[0].url.None? then Linked(cards[1..])
    else [cards[0]] + Linked(cards[1..])
  }

  /** The accumulator never holds two equal rows and only gains Benu rows for
      the key. */
  lemma {:induction false} BenuCardsDistinct(key: string, cards: seq<BenuCard>, acc: seq<Listing>)
    requires NoDuplicates(acc)
    ensures BenuCards(key, cards, acc).Ok? ==> NoDuplicates(BenuCards(key, cards, acc).value)
    ensures BenuCards(key, cards, acc).Ok? ==>
              |acc| <= |BenuCards(key, cards, acc).value| && BenuCards(key, cards, acc).value[..|acc|] == acc
  {
    if cards != [] {
      var step := BenuStep(key, cards[0], acc);
      if step.Ok? {
        if step.value != acc {
          var l := Listing(Strip(cards[0].title.value), Capitalize(key), BenuName, cards[0].url.value,
                           ParseDecimal(CleanPrice(cards[0].price.value)).value);
          DedupKeepsPrefix(acc, [l]);
        }
        BenuCardsDistinct(key, cards[1..], step.value);
      }
    }
  }

  /** The Benu loop only adds Benu rows for its key. */
  lemma {:induction false} BenuCardsTagged(key: string, cards: seq<BenuCard>, acc: seq<Listing>, names: seq<string>)
    requires Tagged(acc, BenuName, names) && Capitalize(key) in names
    ensures BenuCards(key, cards, acc).Ok? ==> Tagged(BenuCards(key, cards, acc).value, BenuName, names)
  {
    if cards != [] {
      var step := BenuStep(key, cards[0], acc);
      if step.Ok? {
        if step.value != acc {
          var c := cards[0];
          var l := Listing(Strip(c.title.value), Capitalize(key), BenuName, c.url.value,
                           ParseDecimal(CleanPrice(c.price.value)).value);
          assert Tagged(acc + [l], BenuName, names);
        }
        BenuCardsTagged(key, cards[1..], step.value, names);
      }
    }
  }

  // ----------------------------------------------------------------------- Herba

  /** What the Herba selectors return for one page: the titles, the links,
      the discounted price texts and the regular price texts, each in page
      order. */
  datatype HerbaDom = HerbaDom(titles: seq<string>, urls: seq<string>, discounted: seq<string>, regular: seq<string>)

  function CleanAll(ts: seq<string>): (r: seq<string>)
    ensures |r| == |ts| && forall i :: 0 <= i < |ts| ==> r[i] == CleanPrice(ts[i])
  {
    seq(|ts|, i requires 0 <= i < |ts| => CleanPrice(ts[i]))
  }

  /** filter(None, texts): the non-empty texts, in order. */
  function NonEmpty(ts: seq<string>): (r: seq<string>)
    ensures |r| <= |ts|
    ensures forall i :: 0 <= i < |r| ==> r[i] != [] && r[i] in ts
    ensures forall i :: 0 <= i < |ts| && ts[i] != [] ==> ts[i] in r
  {
    if ts == [] then [] else if ts[0] == [] then NonEmpty(ts[1..]) else [ts[0]] + NonEmpty(ts[1..])
  }

  /** Filtering keeps the order: the texts of a concatenation are the
      texts of each part, one after the other, and a single text is kept
      exactly when it is not empty. */
  lemma NonEmptyAppend(a: seq<string>, b: seq<string>)
    ensures NonEmpty(a + b) == NonEmpty(a) + NonEmpty(b)
    ensures forall t :: NonEmpty([t]) == (if t == [] then [] else [t])
  {
    NonEmptyConcat(a, b);
    forall t ensures NonEmpty([t]) == (if t == [] then [] else [t]) {
      assert [t][1..] == [];
    }
  }

  /** The induction behind `NonEmptyAppend`, on the first part. */
  lemma {:induction false} NonEmptyConcat(a: seq<string>, b: seq<string>)
    ensures NonEmpty(a + b) == NonEmpty(a) + NonEmpty(b)
  {
    if a == [] {
      assert a + b == b;
    } else {
      var ab := a + b;
      assert ab[0] == a[0] && ab[1..] == a[1..] + b;
      NonEmptyConcat(a[1..], b);
      var kept: seq<string> := if a[0] == [] then [] else [a[0]];
      assert NonEmpty(ab) == kept + NonEmpty(ab[1..]);
      assert NonEmpty(a) == kept + NonEmpty(a[1..]);
      ConsConcat(kept, NonEmpty(a[1..]), NonEmpty(b), NonEmpty(ab), NonEmpty(a), NonEmpty(ab[1..]));
    }
  }

  /** float() on one price text. */
  function ParseText(t: string): Result<real, CrawlError> {
    match ParseDecimal(t)
    case None => Err(BadPrice(t))
    case Some(v) => Ok(v)
  }

  /** list(map(float, texts)): all values, or the first text float() rejects. */
  function ParseAll(ts: seq<string>): (r: Result<seq<real>, CrawlError>)
    ensures r.Ok? ==> |r.value| == |ts| && forall i :: 0 <= i < |ts| ==> ParseDecimal(ts[i]) == Some(r.value[i])
    ensures r.Err? ==> exists i :: 0 <= i < |ts| && ParseDecimal(ts[i]).None? && r.error == BadPrice(ts[i])
  {
    MapAllSpec(ParseText, ts);
    var r := MapAll(ParseText, ts);
    if r.Err? then
      var i :| 0 <= i < |ts| && ParseText(ts[i]) == Err(r.error) && forall j :: 0 <= j < i ==> ParseText(ts[j]).Ok?;
      assert ParseDecimal(ts[i]).None? && r.error == BadPrice(ts[i]);
      r
    else r
  }

  /** The prices of a Herba page, by position: all discounted prices, then all
      regular prices, cleaned, emptied ones dropped. */
  function HerbaPriceTexts(d: HerbaDom): seq<string> {
    NonEmpty(CleanAll(d.discounted + d.regular))
  }

  /** A Herba page. Prices are parsed first; then the columns are combined
      index by index, and unequal lengths raise. The count compared with the
      full-page size is the number of prices. */
  function HerbaPage(key: string, d: HerbaDom): (r: Result<PageRows, CrawlError>)
    ensures r.Ok? ==> var n := r.value.count;
      && n == |d.titles| == |d.urls| == |r.value.rows| == |HerbaPriceTexts(d)|
      && forall i :: 0 <= i < n ==>
           && r.value.rows[i] == Listing(d.titles[i], Capitalize(key), HerbaName, d.urls[i], r.value.rows[i].price)
           && ParseDecimal(HerbaPriceTexts(d)[i]) == Some(r.value.rows[i].price)
    ensures ParseAll(HerbaPriceTexts(d)).Ok? && !(|d.titles| == |d.urls| == |HerbaPriceTexts(d)|)
            ==> r == Err(LengthMismatch)
    ensures r.Ok? ==> Tagged(r.value.rows, HerbaName, [Capitalize(key)])
  {
    var texts := HerbaPriceTexts(d);
    match ParseAll(texts)
    case Err(e) => Err(e)
    case Ok(prices) =>
      if |d.titles| == |d.urls| == |prices| then
        var rows := HerbaColumns(key, d.titles, d.urls, prices);
        assert |rows| == |prices|;
        Ok(PageRows(rows, |prices|))
      else Err(LengthMismatch)
  }

  /** The DataFrame built from the Herba columns of equal length, row by row. */
  function HerbaColumns(key: string, titles: seq<string>, urls: seq<string>, prices: seq<real>): (rows: seq<Listing>)
    requires |titles| == |urls| == |prices|
    ensures |rows| == |prices|
    ensures forall i :: 0 <= i < |rows| ==> rows[i] == Listing(titles[i], Capitalize(key), HerbaName, urls[i], prices[i])
    ensures Tagged(rows, HerbaName, [Capitalize(key)])
  {
    seq(|prices|, i requires 0 <= i < |prices| => Listing(titles[i], Capitalize(key), HerbaName, urls[i], prices[i]))
  }
}
