/** The three crawl loops of app/crawler/crawler.py. The web is replaced by a
    script: the responses to the crawler's successive requests, in order. A
    crawl that asks for more responses than the script holds stops with
    `Unfinished`, which is how the unbounded re-requesting of a failing page
    is represented without a non-terminating loop. */
module Crawl {
  import opened Wrappers
  import opened Distinct
  import opened Collect
  import opened Text
  import opened Listings

  /** The answer to one request: a transport or HTTP-status failure, or the
      parsed document. */
  datatype Response<P> = FetchFailed | Fetched(page: P)

  /** How a crawl ends: it returns its accumulator, it raises, or the script
      ran out while it was still requesting pages. */
  datatype Outcome = Finished(rows: seq<Listing>) | Raised(error: CrawlError) | Unfinished(rows: seq<Listing>)

  /** A failing page is re-requested while its number is below this. */
  const RetryPageLimit: nat := 10
  /** The number of cards on a full Eurovaistine search page. */
  const EuroFullPage: nat := 48
  /** The number of prices on a full Herba search page. */
  const HerbaFullPage: nat := 24

  /** What a paginating crawler does after one request for a page. */
  datatype Next = Refetch | NextPage(acc: seq<Listing>) | KeyDone(acc: seq<Listing>) | Abort(error: CrawlError)

  /** The decision after one request: a failed fetch is retried below page
      10 and ends the key from page 10 on; a page that raises ends the crawl;
      otherwise the page's rows are appended and the accumulator
      deduplicated, and the next page is requested only when the page was
      full and deduplication removed nothing. */
  function Advance(page: nat, acc: seq<Listing>, fetched: Response<Result<PageRows, CrawlError>>, full: nat): (n: Next)
    ensures n == Refetch <==> fetched.FetchFailed? && page < RetryPageLimit
    ensures n.Abort? <==> fetched.Fetched? && fetched.page.Err?
    ensures n.NextPage? <==>
      && fetched.Fetched? && fetched.page.Ok?
      && fetched.page.value.count >= full && NoDuplicates(acc + fetched.page.value.rows)
    ensures fetched.FetchFailed? && page >= RetryPageLimit ==> n == KeyDone(acc)
    ensures fetched.Fetched? && fetched.page.Ok? ==>
      (n.NextPage? || n.KeyDone?) && n.acc == Dedup(acc + fetched.page.value.rows)
  {
    match fetched
    case FetchFailed => if page < RetryPageLimit then Refetch else KeyDone(acc)
    case Fetched(Err(e)) => Abort(e)
    case Fetched(Ok(pr)) =>
      var merged := acc + pr.rows;
      var deduped := Dedup(merged);
      DedupLengthUnchanged(merged);
      if pr.count < full || |deduped| != |merged| then KeyDone(deduped) else NextPage(deduped)
  }

  /** The response with its document parsed for search key `key`. */
  function ParseResponse<P>(key: string, r: Response<P>, parse: (string, P) -> Result<PageRows, CrawlError>)
    : Response<Result<PageRows, CrawlError>>
  {
    match r
    case FetchFailed => FetchFailed
    case Fetched(p) => Fetched(parse(key, p))
  }

  /** A paginating crawl from key index `k`, page `page` and accumulator
      `acc`, over the remaining responses. */
  function Paginate<P>(keys: seq<string>, k: nat, page: nat, acc: seq<Listing>, script: seq<Response<P>>,
                       parse: (string, P) -> Result<PageRows, CrawlError>, full: nat): Outcome
    decreases |script|
  {
    if k >= |keys| then Finished(acc)
    else if script == [] then Unfinished(acc)
    else match Advance(page, acc, ParseResponse(keys[k], script[0], parse), full)
      case Refetch => Paginate(keys, k, page, acc, script[1..], parse, full)
      case NextPage(a) => Paginate(keys, k, page + 1, a, script[1..], parse, full)
      case KeyDone(a) => Paginate(keys, k + 1, 1, a, script[1..], parse, full)
      case Abort(e) => Raised(e)
  }

  /** One request of a paginating crawl, as the loops take it. */
  lemma PaginateStep<P>(keys: seq<string>, k: nat, page: nat, acc: seq<Listing>, script: seq<Response<P>>,
                        parse: (string, P) -> Result<PageRows, CrawlError>, full: nat, n: Next)
    requires k < |keys| && script != []
    requires n == Advance(page, acc, ParseResponse(keys[k], script[0], parse), full)
    ensures n == Refetch ==>
      Paginate(keys, k, page, acc, script, parse, full) == Paginate(keys, k, page, acc, script[1..], parse, full)
    ensures n.NextPage? ==>
      Paginate(keys, k, page, acc, script, parse, full) == Paginate(keys, k, page + 1, n.acc, script[1..], parse, full)
    ensures n.KeyDone? ==>
      Paginate(keys, k, page, acc, script, parse, full) == Paginate(keys, k + 1, 1, n.acc, script[1..], parse, full)
    ensures n.Abort? ==> Paginate(keys, k, page, acc, script, parse, full) == Raised(n.error)
  {
  }

  /** The page parser of a crawler that scrapes a page element by element
      with the step `step(key)`. */
  function ByElements<C>(step: string -> C -> Result<Listing, CrawlError>): (string, seq<C>) -> Result<PageRows, CrawlError> {
    (key, elements) => ElementPage(step(key), elements)
  }

  /** The Benu crawl from key index `k`: one request per key, no pagination;
      a failed fetch skips the key. */
  function BenuFrom(keys: seq<string>, k: nat, acc: seq<Listing>, script: seq<Response<seq<BenuCard>>>): Outcome
    decreases |script|
  {
    if k >= |keys| then Finished(acc)
    else if script == [] then Unfinished(acc)
    else match script[0]
      case FetchFailed => BenuFrom(keys, k + 1, acc, script[1..])
      case Fetched(cards) =>
        match BenuCards(keys[k], cards, acc)
        case Err(e) => Raised(e)
        case Ok(a) => BenuFrom(keys, k + 1, a, script[1..])
  }

  /** The element loop over one page. */
  method ScrapePage<C>(step: string -> C -> Result<Listing, CrawlError>, key: string, elements: seq<C>)
    returns (r: Result<PageRows, CrawlError>)
    ensures r == ByElements(step)(key, elements)
  {
    var rows := CollectAll(step(key), elements);
    if rows.Err? {
      return Err(rows.error);
    }
    return Ok(PageRows(rows.value, |elements|));
  }

  /** What the crawler does with the response to one request for page
      `page` of key `key`, when a page is scraped element by element. */
  method RequestByElements<C>(step: string -> C -> Result<Listing, CrawlError>, key: string, page: nat,
                              acc: seq<Listing>, response: Response<seq<C>>, full: nat)
    returns (n: Next)
    ensures n == Advance(page, acc, ParseResponse(key, response, ByElements(step)), full)
  {
    if response.FetchFailed? {
      if page >= RetryPageLimit {
        return KeyDone(acc);
      }
      return Refetch;
    }
    var parsed := ScrapePage(step, key, response.page);
    n := Merge(acc, parsed, full);
  }

  /** The same for a crawler that parses each page as a whole. */
  method RequestByPages<P>(parse: (string, P) -> Result<PageRows, CrawlError>, key: string, page: nat,
                           acc: seq<Listing>, response: Response<P>, full: nat)
    returns (n: Next)
    ensures n == Advance(page, acc, ParseResponse(key, response, parse), full)
  {
    if response.FetchFailed? {
      if page >= RetryPageLimit {
        return KeyDone(acc);
      }
      return Refetch;
    }
    var parsed := parse(key, response.page);
    n := Merge(acc, parsed, full);
  }

  /** A parsed page: a raising page ends the crawl; otherwise its rows are
      appended, the accumulator deduplicated, and the key is done when the
      page was not full or deduplication removed a row. */
  method Merge(acc: seq<Listing>, parsed: Result<PageRows, CrawlError>, full: nat) returns (n: Next)
    ensures n == Advance(0, acc, Fetched(parsed), full)
  {
    if parsed.Err? {
      return Abort(parsed.error);
    }
    var preprocessed := acc + parsed.value.rows;
    var deduped := Dedup(preprocessed);
    if parsed.value.count < full || |preprocessed| != |deduped| {
      return KeyDone(deduped);
    }
    return NextPage(deduped);
  }

  /** The loop shared by the paginating crawlers, for a crawler that scrapes
      each page element by element: the keys in order, each with its page
      loop, and the accumulator shared by all keys. */
  method CrawlByElements<C>(keys: seq<string>, script: seq<Response<seq<C>>>,
                            step: string -> C -> Result<Listing, CrawlError>, full: nat)
    returns (out: Outcome)
    ensures out == Paginate(keys, 0, 1, [], script, ByElements(step), full)
  {
    var acc: seq<Listing> := [];
    var next: nat := 0;
    for k := 0 to |keys|
      invariant next <= |script|
      invariant Paginate(keys, 0, 1, [], script, ByElements(step), full)
             == Paginate(keys, k, 1, acc, script[next..], ByElements(step), full)
    {
      var stop;
      acc, next, stop := KeyByElements(keys, k, acc, script, next, step, full);
      if stop.Some? {
        return stop.value;
      }
    }
    return Finished(acc);
  }

  /** The page loop of key `k` for a crawler that scrapes element by
      element: pages are requested from 1 on until the key is done. `stop`
      is the crawl's outcome when the crawl ends during this key. */
  method KeyByElements<C>(keys: seq<string>, k: nat, acc0: seq<Listing>, script: seq<Response<seq<C>>>, next0: nat,
                          step: string -> C -> Result<Listing, CrawlError>, full: nat)
    returns (acc: seq<Listing>, next: nat, stop: Option<Outcome>)
    requires k < |keys| && next0 <= |script|
    ensures next <= |script|
    ensures stop.Some? ==> Paginate(keys, k, 1, acc0, script[next0..], ByElements(step), full) == stop.value
    ensures stop.None? ==>
      Paginate(keys, k, 1, acc0, script[next0..], ByElements(step), full)
      == Paginate(keys, k + 1, 1, acc, script[next..], ByElements(step), full)
  {
    ghost var parse := ByElements(step);
    acc, next := acc0, next0;
    var page := 1;
    var keyDone := false;
    while !keyDone
      invariant next <= |script|
      invariant Paginate(keys, k, 1, acc0, script[next0..], parse, full)
             == Paginate(keys, if keyDone then k + 1 else k, if keyDone then 1 else page, acc, script[next..], parse, full)
      decreases |script| - next, !keyDone
    {
      if next == |script| {
        return acc, next, Some(Unfinished(acc));
      }
      assert script[next..][0] == script[next] && script[next..][1..] == script[next + 1..];
      var n := RequestByElements(step, keys[k], page, acc, script[next], full);
      PaginateStep(keys, k, page, acc, script[next..], parse, full, n);
      next := next + 1;
      match n
      case Refetch =>
      case NextPage(a) => acc, page := a, page + 1;
      case KeyDone(a) => acc, keyDone := a, true;
      case Abort(e) => return acc, next, Some(Raised(e));
    }
    stop := None;
  }

  /** The same loop for a crawler that parses each page as a whole. */
  method CrawlByPages<P>(keys: seq<string>, script: seq<Response<P>>,
                         parse: (string, P) -> Result<PageRows, CrawlError>, full: nat)
    returns (out: Outcome)
    ensures out == Paginate(keys, 0, 1, [], script, parse, full)
  {
    var acc: seq<Listing> := [];
    var next: nat := 0;
    for k := 0 to |keys|
      invariant next <= |script|
      invariant Paginate(keys, 0, 1, [], script, parse, full) == Paginate(keys, k, 1, acc, script[next..], parse, full)
    {
      var stop;
      acc, next, stop := KeyByPages(keys, k, acc, script, next, parse, full);
      if stop.Some? {
        return stop.value;
      }
    }
    return Finished(acc);
  }

  /** The page loop of key `k` for a crawler that parses each page as a
      whole. */
  method KeyByPages<P>(keys: seq<string>, k: nat, acc0: seq<Listing>, script: seq<Response<P>>, next0: nat,
                       parse: (string, P) -> Result<PageRows, CrawlError>, full: nat)
    returns (acc: seq<Listing>, next: nat, stop: Option<Outcome>)
    requires k < |keys| && next0 <= |script|
    ensures next <= |script|
    ensures stop.Some? ==> Paginate(keys, k, 1, acc0, script[next0..], parse, full) == stop.value
    ensures stop.None? ==>
      Paginate(keys, k, 1, acc0, script[next0..], parse, full) == Paginate(keys, k + 1, 1, acc, script[next..], parse, full)
  {
    acc, next := acc0, next0;
    var page := 1;
    var keyDone := false;
    while !keyDone
      invariant next <= |script|
      invariant Paginate(keys, k, 1, acc0, script[next0..], parse, full)
             == Paginate(keys, if keyDone then k + 1 else k, if keyDone then 1 else page, acc, script[next..], parse, full)
      decreases |script| - next, !keyDone
    {
      if next == |script| {
        return acc, next, Some(Unfinished(acc));
      }
      assert script[next..][0] == script[next] && script[next..][1..] == script[next + 1..];
      var n := RequestByPages(parse, keys[k], page, acc, script[next], full);
      PaginateStep(keys, k, page, acc, script[next..], parse, full, n);
      next := next + 1;
      match n
      case Refetch =>
      case NextPage(a) => acc, page := a, page + 1;
      case KeyDone(a) => acc, keyDone := a, true;
      case Abort(e) => return acc, next, Some(Raised(e));
    }
    stop := None;
  }

  /** CrawlerEurovaistine.crawl. */
  method CrawlEurovaistine(script: seq<Response<seq<EuroCard>>>) returns (out: Outcome)
    ensures out == Paginate(ManufacturerKeys, 0, 1, [], script, ByElements(EuroStep), EuroFullPage)
  {
    out := CrawlByElements(ManufacturerKeys, script, EuroStep, EuroFullPage);
  }

  /** CrawlerHerba.crawl. */
  method CrawlHerba(script: seq<Response<HerbaDom>>) returns (out: Outcome)
    ensures out == Paginate(HerbaKeys, 0, 1, [], script, HerbaPage, HerbaFullPage)
  {
    out := CrawlByPages(HerbaKeys, script, HerbaPage, HerbaFullPage);
  }

  /** The element loop of CrawlerBenu.crawl over one page, from accumulator
      `acc0`. */
  method ScrapeBenuPage(key: string, cards: seq<BenuCard>, acc0: seq<Listing>) returns (r: Result<seq<Listing>, CrawlError>)
    ensures r == BenuCards(key, cards, acc0)
  {
    var acc := acc0;
    for j := 0 to |cards|
      invariant BenuCards(key, cards, acc0) == BenuCards(key, cards[j..], acc)
    {
      var c := cards[j];
      assert cards[j..][0] == c && cards[j..][1..] == cards[j + 1..];
      if c.url.None? {
        continue;
      }
      if c.title.None? || c.price.None? {
        return Err(MissingField);
      }
      var text := CleanPrice(c.price.value);
      if text == [] {
        continue;
      }
      var price := ParseDecimal(text);
      if price.None? {
        return Err(BadPrice(text));
      }
      acc := Dedup(acc + [Listing(Strip(c.title.value), Capitalize(key), BenuName, c.url.value, price.value)]);
    }
    assert cards[|cards|..] == [];
    return Ok(acc);
  }

  /** CrawlerBenu.crawl: one request per key; a failed fetch skips the key. */
  method CrawlBenu(script: seq<Response<seq<BenuCard>>>) returns (out: Outcome)
    ensures out == BenuFrom(ManufacturerKeys, 0, [], script)
  {
    out := CrawlBenuKeys(ManufacturerKeys, script);
  }

  /** The Benu loop over any list of keys. */
  method CrawlBenuKeys(keys: seq<string>, script: seq<Response<seq<BenuCard>>>) returns (out: Outcome)
    ensures out == BenuFrom(keys, 0, [], script)
  {
    var acc: seq<Listing> := [];
    for k := 0 to |keys|
      invariant k <= |script|
      invariant BenuFrom(keys, 0, [], script) == BenuFrom(keys, k, acc, script[k..])
    {
      if k == |script| {
        return Unfinished(acc);
      }
      assert script[k..][0] == script[k] && script[k..][1..] == script[k + 1..];
      BenuFromStep(keys, k, acc, script[k..]);
      var response := script[k];
      if response.Fetched? {
        var r := ScrapeBenuPage(keys[k], response.page, acc);
        if r.Err? {
          return Raised(r.error);
        }
        acc := r.value;
      }
    }
    return Finished(acc);
  }

  /** One request of the Benu crawl, as the loop takes it. */
  lemma BenuFromStep(keys: seq<string>, k: nat, acc: seq<Listing>, script: seq<Response<seq<BenuCard>>>)
    requires k < |keys| && script != []
    ensures script[0].FetchFailed? ==> BenuFrom(keys, k, acc, script) == BenuFrom(keys, k + 1, acc, script[1..])
    ensures script[0].Fetched? && BenuCards(keys[k], script[0].page, acc).Err? ==>
      BenuFrom(keys, k, acc, script) == Raised(BenuCards(keys[k], script[0].page, acc).error)
    ensures script[0].Fetched? && BenuCards(keys[k], script[0].page, acc).Ok? ==>
      BenuFrom(keys, k, acc, script) == BenuFrom(keys, k + 1, BenuCards(keys[k], script[0].page, acc).value, script[1..])
  {
  }

  // ------------------------------------------------------------------ properties

  /** The accumulator `acc` was carried into outcome `o`: unless the crawl
      raised, its rows are distinct and begin with `acc`. */
  predicate Carried(acc: seq<Listing>, o: Outcome) {
    o.Raised? || (NoDuplicates(o.rows) && |acc| <= |o.rows| && o.rows[..|acc|] == acc)
  }

  /** One request keeps the accumulator distinct and its old rows in front. */
  lemma AdvanceCarries(page: nat, acc: seq<Listing>, fetched: Response<Result<PageRows, CrawlError>>, full: nat)
    requires NoDuplicates(acc)
    ensures var n := Advance(page, acc, fetched, full);
      (n.NextPage? || n.KeyDone?) ==> NoDuplicates(n.acc) && |acc| <= |n.acc| && n.acc[..|acc|] == acc
  {
    if fetched.Fetched? && fetched.page.Ok? {
      DedupKeepsPrefix(acc, fetched.page.value.rows);
    }
  }

  /** Carrying is transitive: what `acc2` carries on, so does its prefix. */
  lemma CarriedThrough(acc: seq<Listing>, acc2: seq<Listing>, o: Outcome)
    requires |acc| <= |acc2| && acc2[..|acc|] == acc && Carried(acc2, o)
    ensures Carried(acc, o)
  {
    if !o.Raised? {
      assert o.rows[..|acc2|][..|acc|] == o.rows[..|acc|];
    }
  }

  /** The accumulator of a paginating crawl never holds two equal rows, and
      rows once accumulated stay, in their order, at its front: deduplication
      keeps first occurrences. */
  lemma {:induction false} PaginateAccumulates<P>(keys: seq<string>, k: nat, page: nat, acc: seq<Listing>,
                                                  script: seq<Response<P>>,
                                                  parse: (string, P) -> Result<PageRows, CrawlError>, full: nat)
    requires NoDuplicates(acc)
    ensures Carried(acc, Paginate(keys, k, page, acc, script, parse, full))
    decreases |script|
  {
    if k < |keys| && script != [] {
      var f := ParseResponse(keys[k], script[0], parse);
      var n := Advance(page, acc, f, full);
      PaginateStep(keys, k, page, acc, script, parse, full, n);
      AdvanceCarries(page, acc, f, full);
      match n
      case Refetch =>
        PaginateAccumulates(keys, k, page, acc, script[1..], parse, full);
      case NextPage(a) =>
        PaginateAccumulates(keys, k, page + 1, a, script[1..], parse, full);
        CarriedThrough(acc, a, Paginate(keys, k, page + 1, a, script[1..], parse, full));
      case KeyDone(a) =>
        PaginateAccumulates(keys, k + 1, 1, a, script[1..], parse, full);
        CarriedThrough(acc, a, Paginate(keys, k + 1, 1, a, script[1..], parse, full));
      case Abort(_) =>
    } else {
      assert acc[..|acc|] == acc;
    }
  }

  /** A page whose fetch keeps failing below page 10 is requested for as
      long as responses last: the crawl never finishes. */
  lemma {:induction false} RetriesBelowPageTen<P>(keys: seq<string>, k: nat, page: nat, acc: seq<Listing>, n: nat,
                                                  parse: (string, P) -> Result<PageRows, CrawlError>, full: nat)
    requires k < |keys| && page < RetryPageLimit
    ensures Paginate(keys, k, page, acc, seq(n, _ => FetchFailed), parse, full) == Unfinished(acc)
  {
    if n > 0 {
      var script: seq<Response<P>> := seq(n, _ => FetchFailed);
      assert script[1..] == seq(n - 1, _ => FetchFailed);
      RetriesBelowPageTen(keys, k, page, acc, n - 1, parse, full);
    }
  }

  /** From page 10 on, a failed fetch abandons the key: the crawl goes on
      with the next key, page 1, and the same rows. */
  lemma AbandonsFromPageTen<P>(keys: seq<string>, k: nat, page: nat, acc: seq<Listing>, rest: seq<Response<P>>,
                               parse: (string, P) -> Result<PageRows, CrawlError>, full: nat)
    requires k < |keys| && page >= RetryPageLimit
    ensures Paginate(keys, k, page, acc, [FetchFailed] + rest, parse, full) == Paginate(keys, k + 1, 1, acc, rest, parse, full)
  {
    assert ([FetchFailed] + rest)[1..] == rest;
  }

  /** Every row of `rows` is also a row of `source`, so a row property of
      `source` holds of `rows`. */
  lemma TaggedWithin(rows: seq<Listing>, source: seq<Listing>, eshop: string, names: seq<string>)
    requires Tagged(source, eshop, names)
    requires forall i :: 0 <= i < |rows| ==> rows[i] in source
    ensures Tagged(rows, eshop, names)
  {
  }

  /** Every page the parser yields for one of the keys has only rows of the
      eshop and of the named manufacturers. */
  ghost predicate PagesTagged<P(!new)>(parse: (string, P) -> Result<PageRows, CrawlError>, keys: seq<string>,
                                       eshop: string, names: seq<string>) {
    forall k, p :: 0 <= k < |keys| && parse(keys[k], p).Ok? ==> Tagged(parse(keys[k], p).value.rows, eshop, names)
  }

  /** When every page is tagged, so is every accumulated row. */
  lemma {:induction false} PaginateTagged<P(!new)>(keys: seq<string>, k: nat, page: nat, acc: seq<Listing>,
                                                   script: seq<Response<P>>,
                                                   parse: (string, P) -> Result<PageRows, CrawlError>, full: nat,
                                                   eshop: string, names: seq<string>)
    requires Tagged(acc, eshop, names) && PagesTagged(parse, keys, eshop, names)
    ensures Paginate(keys, k, page, acc, script, parse, full).Raised?
            || Tagged(Paginate(keys, k, page, acc, script, parse, full).rows, eshop, names)
    decreases |script|
  {
    if k < |keys| && script != [] {
      var n := Advance(page, acc, ParseResponse(keys[k], script[0], parse), full);
      PaginateStep(keys, k, page, acc, script, parse, full, n);
      var f := ParseResponse(keys[k], script[0], parse);
      if f.Fetched? && f.page.Ok? {
        var rows := f.page.value.rows;
        assert rows == parse(keys[k], script[0].page).value.rows;
        TaggedWithin(n.acc, acc + rows, eshop, names);
        if n.NextPage? {
          PaginateTagged(keys, k, page + 1, n.acc, script[1..], parse, full, eshop, names);
        } else {
          PaginateTagged(keys, k + 1, 1, n.acc, script[1..], parse, full, eshop, names);
        }
      } else if n == Refetch {
        PaginateTagged(keys, k, page, acc, script[1..], parse, full, eshop, names);
      } else if n.KeyDone? {
        PaginateTagged(keys, k + 1, 1, acc, script[1..], parse, full, eshop, names);
      }
    }
  }

  /** The rows CrawlerEurovaistine.crawl returns, for any list of keys (the
      crawler's own is ManufacturerKeys), are distinct Eurovaistine rows of
      the keys' manufacturers. */
  lemma EurovaistineRows(keys: seq<string>, script: seq<Response<seq<EuroCard>>>)
    ensures var o := Paginate(keys, 0, 1, [], script, ByElements(EuroStep), EuroFullPage);
      o.Raised? || (NoDuplicates(o.rows) && Tagged(o.rows, EurovaistineName, Capitalized(keys)))
  {
    var names := Capitalized(keys);
    forall k, p | 0 <= k < |keys| && ByElements(EuroStep)(keys[k], p).Ok?
      ensures Tagged(ByElements(EuroStep)(keys[k], p).value.rows, EurovaistineName, names)
    {
      EuroPageSpec(keys[k], p);
      assert names[k] == Capitalize(keys[k]);
    }
    PaginateAccumulates(keys, 0, 1, [], script, ByElements(EuroStep), EuroFullPage);
    PaginateTagged(keys, 0, 1, [], script, ByElements(EuroStep), EuroFullPage, EurovaistineName, names);
  }

  /** The rows CrawlerHerba.crawl returns, for any list of keys (the
      crawler's own is HerbaKeys), are distinct Herba rows of the keys'
      manufacturers. */
  lemma HerbaRows(keys: seq<string>, script: seq<Response<HerbaDom>>)
    ensures var o := Paginate(keys, 0, 1, [], script, HerbaPage, HerbaFullPage);
      o.Raised? || (NoDuplicates(o.rows) && Tagged(o.rows, HerbaName, Capitalized(keys)))
  {
    var names := Capitalized(keys);
    forall k, p | 0 <= k < |keys| && HerbaPage(keys[k], p).Ok?
      ensures Tagged(HerbaPage(keys[k], p).value.rows, HerbaName, names)
    {
      assert names[k] == Capitalize(keys[k]);
    }
    PaginateAccumulates(keys, 0, 1, [], script, HerbaPage, HerbaFullPage);
    PaginateTagged(keys, 0, 1, [], script, HerbaPage, HerbaFullPage, HerbaName, names);
  }

  /** The accumulator of CrawlerBenu.crawl never holds two equal rows, and
      rows once accumulated stay, in their order, at its front. */
  lemma {:induction false} BenuAccumulates(keys: seq<string>, k: nat, acc: seq<Listing>,
                                           script: seq<Response<seq<BenuCard>>>)
    requires NoDuplicates(acc)
    ensures var o := BenuFrom(keys, k, acc, script);
      o.Raised? || (NoDuplicates(o.rows) && |acc| <= |o.rows| && o.rows[..|acc|] == acc)
    decreases |script|
  {
    if k < |keys| && script != [] {
      if script[0].FetchFailed? {
        BenuAccumulates(keys, k + 1, acc, script[1..]);
      } else {
        var r := BenuCards(keys[k], script[0].page, acc);
        if r.Ok? {
          BenuCardsDistinct(keys[k], script[0].page, acc);
          BenuAccumulates(keys, k + 1, r.value, script[1..]);
          var o := BenuFrom(keys, k + 1, r.value, script[1..]);
          if !o.Raised? {
            assert o.rows[..|r.value|][..|acc|] == o.rows[..|acc|];
          }
        }
      }
    }
  }

  /** The rows CrawlerBenu.crawl returns, for any list of keys (the
      crawler's own is ManufacturerKeys), are Benu rows of the keys'
      manufacturers. */
  lemma {:induction false} BenuRows(keys: seq<string>, k: nat, acc: seq<Listing>, script: seq<Response<seq<BenuCard>>>)
    requires Tagged(acc, BenuName, Capitalized(keys))
    ensures var o := BenuFrom(keys, k, acc, script);
      o.Raised? || Tagged(o.rows, BenuName, Capitalized(keys))
    decreases |script|
  {
    if k < |keys| && script != [] {
      if script[0].FetchFailed? {
        BenuRows(keys, k + 1, acc, script[1..]);
      } else {
        var r := BenuCards(keys[k], script[0].page, acc);
        if r.Ok? {
          BenuCardsTagged(keys[k], script[0].page, acc, Capitalized(keys));
          BenuRows(keys, k + 1, r.value, script[1..]);
        }
      }
    }
  }

  /** Benu makes one request per key and never retries: a script with a
      response for every remaining key is enough for the crawl to end. */
  lemma {:induction false} BenuOneRequestPerKey(keys: seq<string>, k: nat, acc: seq<Listing>,
                                                script: seq<Response<seq<BenuCard>>>)
    requires k <= |keys| && |script| >= |keys| - k
    ensures !BenuFrom(keys, k, acc, script).Unfinished?
    decreases |script|
  {
    if k < |keys| {
      BenuFromStep(keys, k, acc, script);
      if script[0].FetchFailed? {
        BenuOneRequestPerKey(keys, k + 1, acc, script[1..]);
      } else {
        var r := BenuCards(keys[k], script[0].page, acc);
        if r.Ok? {
          BenuOneRequestPerKey(keys, k + 1, r.value, script[1..]);
        }
      }
    }
  }
}
