# Pharmacy price tracker: a Dafny model

The system is a Flask application with three Dash dashboards, and it tracks
cosmetics prices in Lithuanian online pharmacies. Three crawlers cover
Eurovaistine, Benu and Herba. Each one scrapes the product cards of a fixed
list of manufacturers and returns a table of listings (title, manufacturer,
eshop, url, price). `save` writes one such table to PostgreSQL in a single
transaction.

The dashboards read that data in three ways:

- The "price index" dashboard runs the three crawlers on a button click. It
  plots average daily prices per manufacturer or per eshop.
- The "data table" dashboard lists every product with its latest price.
- The "analogs" dashboard edits links between equivalent products of
  different eshops. It shows their latest prices side by side.

A small login and registration blueprint guards the pages.

The model is organised like the program:

- `Schema` holds the tables and their constraints. `Valid` is the invariant.
  `Database` is the mutable store that callbacks update in place.
- `Text` covers the string handling: `strip`, the price-cleaning `replace`
  chain, `capitalize`, `split(' ', 1)` and `float`.
- `Listings` parses one page of product cards, per eshop.
- `Crawl` holds the crawl loops as methods. Each method is proved equal to a
  pagination function that is specified separately.
- `Persist` is `save`, as a method and as a table transition.
- `Observations` chooses an observation the way `DISTINCT ON … ORDER BY date`
  does. It also rounds to two decimals and truncates a timestamp to a date.
- `DataTable`, `PriceIndex`, `Analogs` and `Auth` each model one dashboard
  or the blueprint.
- `Distinct`, `Collect` and `Ordering` model `drop_duplicates`, the
  fail-on-first-error list comprehension and `ORDER BY id`.

Some external inputs become parameters:

- An HTTP fetch becomes a scripted sequence of responses. Each response is
  either a failed fetch or the already-extracted XPath results of one page.
- `now()` becomes a timestamp parameter.
- Password hashing becomes a hash value and a checking function.

In a few places the code does something other than its messages, names or
evident purpose suggest. The model follows the code:

- Eurovaistine raises an error on a card whose price text and struck-out
  price text both clean to the empty string. `float("")` fails, and the
  crawl is aborted.
- A save of an empty table fails. The statement `VALUES` with nothing after
  it is a syntax error, so the transaction rolls back and nothing is written.
  A save also fails when any value is too long for its column
  (`VARCHAR(64)` for eshop and manufacturer names, `VARCHAR(256)` for product
  names and urls). The update button then loses that crawler's whole batch.
- Saving the analog grid fails when no row has both names filled in, for the
  same `VALUES` reason. It also fails when two resolved rows share an id,
  because `ON CONFLICT DO UPDATE` cannot touch the same row twice. It also
  fails when a filled-in name has no space or a row has no id.
- The registration messages are off by one. The code requires 6 to 14
  characters of password and 4 to 14 of username, while the messages say
  "at least 5" and "at most 15". The weak-password message does not mention
  the lower-case letter that the check requires. The model keeps the code's
  bounds and the code's messages.
- "Registration successful" is flashed as a plain string. The model carries
  every flash as a list of lines, so that message becomes a one-line list.

## Model

| member | source | states |
|---|---|---|
| Schema.IdOf | app/crawler/crawler.py:76-77 | a name resolves to an id exactly when it occurs in the column, and the row at that id carries the name |
| Schema.IdOfUnique | app/models.py:35-36 | under a unique column, the id a name resolves to is that row's own id |
| Schema.ProductNames | app/models.py:35 | the name column has one entry per product, in row order |
| Schema.ProductUrls | app/models.py:36 | the url column has one entry per product, in row order |
| Schema.EshopNames | app/models.py:67 | the name column has one entry per eshop, in row order |
| Schema.ManufacturerNames | app/models.py:58 | the name column has one entry per manufacturer, in row order |
| Schema.Database.constructor | app/models.py:33-96 | the database starts holding exactly the given tables |
| Text.StripLeft | app/crawler/crawler.py:146 | the result is a suffix of the input, and every removed character is whitespace and the result does not start with one |
| Text.StripRight | app/crawler/crawler.py:146 | the result is a prefix of the input, and every removed character is whitespace and the result does not end with one |
| Text.Strip | app/crawler/crawler.py:146 | the result is the input minus leading and trailing whitespace runs, with no whitespace at either end |
| Text.ReplaceAllChars | app/crawler/crawler.py:151-157 | every character after a replace comes from the input or from the replacement |
| Text.ReplaceCharRemoves | app/crawler/crawler.py:154-156 | replacing a character by text that does not contain it removes every occurrence |
| Text.CleanPriceSeparatorsGone | app/crawler/crawler.py:151-157 | a cleaned price holds no comma, no-break space or euro sign, and nothing that was not in the stripped text except the decimal point |
| Text.ToUpper | app/crawler/crawler.py:147 | a lower-case letter becomes the upper-case letter 32 code points below it, and other characters are unchanged |
| Text.ToLower | app/crawler/crawler.py:147 | an upper-case letter becomes the lower-case letter 32 code points above it, and other characters are unchanged |
| Text.LowerAll | app/crawler/crawler.py:147 | every character is lowered, position by position |
| Text.Capitalize | app/crawler/crawler.py:147 | same length, first character upper-cased, every later character lower-cased |
| Text.AfterFirstSpace | app/dash/analogs.py:125 | `split(' ', 1)[1]` fails exactly when there is no space, and otherwise gives the text after the first space |
| Text.AfterFirstSpaceOfJoin | app/dash/analogs.py:57-58 | splitting "eshop name" at its first space gives back the name when the eshop has no space |
| Text.Pow10 | app/crawler/crawler.py:169 | the digit weight is positive |
| Text.DigitsValue | app/crawler/crawler.py:169 | a run of n digits is worth less than 10^n |
| Text.IndexOfDot | app/crawler/crawler.py:169 | finds the first decimal point, or reports that there is none |
| Text.UnsignedValue | app/crawler/crawler.py:169 | an unsigned decimal parses to a non-negative number |
| Text.ParseDecimal | app/crawler/crawler.py:169 | `float` succeeds exactly on a stripped decimal literal, and an unsigned one is non-negative |
| Text.UnsignedIsDecimal | app/crawler/crawler.py:169 | the unsigned parser accepts exactly the decimal literals |
| Distinct.Dedup | app/crawler/crawler.py:185 | `drop_duplicates` leaves no duplicates and keeps every row it was given, and only those |
| Distinct.FirstIndex | app/crawler/crawler.py:185 | gives the first position of a value |
| Distinct.DedupKeepsFirstOrder | app/crawler/crawler.py:185 | `drop_duplicates` keeps each row's first occurrence, in first-occurrence order |
| Distinct.DedupIncremental | app/crawler/crawler.py:184-185 | deduplicating after each page equals deduplicating the concatenation once |
| Distinct.DedupOfDistinct | app/crawler/crawler.py:185 | a table without duplicates is unchanged |
| Distinct.DedupLengthUnchanged | app/crawler/crawler.py:184-188 | the length is unchanged exactly when there were no duplicates, which is the crawlers' stop test |
| Distinct.DedupKeepsPrefix | app/crawler/crawler.py:185 | rows gathered earlier stay in front, in place |
| Distinct.DedupExample | app/crawler/crawler.py:185 | a repeated row is dropped |
| Collect.MapAllSpec | app/dash/analogs.py:124-127 | a comprehension whose element may raise succeeds exactly when every element succeeds, and otherwise raises the first element's error |
| Collect.CollectAll | app/dash/analogs.py:124-127 | the loop computes the comprehension |
| Ordering.SetMin | app/dash/analogs.py:43 | the least id of a non-empty set |
| Ordering.SortedKeys | app/dash/analogs.py:43 | `ORDER BY analog.id`: every id exactly once, strictly ascending |
| Listings.Capitalized | app/crawler/crawler.py:147 | each manufacturer key is capitalised, in order |
| Listings.EuroPriceText | app/crawler/crawler.py:151-168 | the cleaned price, or the cleaned struck-out price when the first cleans to empty |
| Listings.EuroListing | app/crawler/crawler.py:141-183 | a parsed Eurovaistine card is tagged with the eshop and the capitalised key |
| Listings.EuroListingSpec | app/crawler/crawler.py:141-183 | a card parses exactly when url, title, price and a parsable cleaned price exist; the listing is (stripped title, key, eshop, url, price); two empty price texts raise |
| Listings.EuroPageSpec | app/crawler/crawler.py:141-183 | a page parses exactly when every card does, into one listing per card in order, all tagged |
| Listings.BenuStep | app/crawler/crawler.py:222-263 | a card without a link or with an empty price is skipped; a linked card missing title or price raises; otherwise its listing is appended and deduplicated |
| Listings.BenuSkipsUnlinked | app/crawler/crawler.py:223-228 | cards without a link have no effect |
| Listings.Linked | app/crawler/crawler.py:223-228 | keeps only linked cards |
| Listings.BenuCardsDistinct | app/crawler/crawler.py:263 | a Benu page keeps the listings gathered so far in front and leaves no duplicates |
| Listings.BenuCardsTagged | app/crawler/crawler.py:229-263 | every Benu listing carries the eshop name and a capitalised manufacturer key |
| Listings.CleanAll | app/crawler/crawler.py:301-308 | each Herba price text is cleaned, in order |
| Listings.NonEmpty | app/crawler/crawler.py:309 | `filter(None, …)` keeps exactly the non-empty texts |
| Listings.NonEmptyAppend | app/crawler/crawler.py:309 | filtering keeps order and multiplicity: the texts kept from a concatenation are those kept from each part, in turn, and a single text is kept exactly when it is non-empty |
| Listings.NonEmptyConcat | app/crawler/crawler.py:309 | the texts kept from a concatenation are those kept from each part, in turn |
| Listings.ParseAll | app/crawler/crawler.py:310 | `map(float, …)` succeeds with the parsed values in order, or raises on an unparsable text |
| Listings.HerbaPage | app/crawler/crawler.py:286-325 | a Herba page gives one listing per title, zipped with urls and prices; unequal columns raise |
| Listings.HerbaColumns | app/crawler/crawler.py:312-325 | the data frame built from equal-length columns, tagged with the eshop and key |
| Crawl.Advance | app/crawler/crawler.py:130-189 | after a request: refetch on a failed fetch below page 10; stop the key on a failed fetch from page 10 on; abort on a parse error; go to the next page exactly when the page was full and brought no duplicate; otherwise keep the deduplicated rows and stop the key |
| Crawl.PaginateStep | app/crawler/crawler.py:126-189 | one request unfolds the pagination function as the loop body does |
| Crawl.ScrapePage | app/crawler/crawler.py:141-183 | the card loop equals the page parser |
| Crawl.RequestByElements | app/crawler/crawler.py:130-189 | one request of the card-by-card crawler gives the step the pagination function takes |
| Crawl.RequestByPages | app/crawler/crawler.py:277-334 | one request of the column crawler gives the step the pagination function takes |
| Crawl.Merge | app/crawler/crawler.py:184-189 | merging a parsed page gives the step the pagination function takes |
| Crawl.CrawlByElements | app/crawler/crawler.py:112-190 | the key loop, with one page loop per key and one shared accumulator, computes the pagination function |
| Crawl.KeyByElements | app/crawler/crawler.py:125-189 | one key's page loop, from page 1 until the key is done, takes the pagination function from this key to the next, or to the crawl's outcome when the crawl ends during the key |
| Crawl.CrawlByPages | app/crawler/crawler.py:268-336 | the key loop, with one page loop per key and one shared accumulator, computes the pagination function |
| Crawl.KeyByPages | app/crawler/crawler.py:271-334 | one key's page loop, from page 1 until the key is done, takes the pagination function from this key to the next, or to the crawl's outcome when the crawl ends during the key |
| Crawl.CrawlEurovaistine | app/crawler/crawler.py:112-190 | the Eurovaistine crawl over its eight manufacturers with full pages of 48 |
| Crawl.CrawlHerba | app/crawler/crawler.py:268-336 | the Herba crawl over "uriage" and "apivita" with full pages of 24 |
| Crawl.ScrapeBenuPage | app/crawler/crawler.py:220-263 | the card loop equals the Benu page function |
| Crawl.CrawlBenu | app/crawler/crawler.py:195-264 | the Benu crawl over its eight manufacturers, one page each |
| Crawl.CrawlBenuKeys | app/crawler/crawler.py:197-264 | the key loop computes the Benu crawl function |
| Crawl.BenuFromStep | app/crawler/crawler.py:211-263 | a failed Benu fetch skips the key, a raising page aborts, and a parsed page carries on with its rows |
| Crawl.AdvanceCarries | app/crawler/crawler.py:185 | a step keeps the gathered rows in front and free of duplicates |
| Crawl.CarriedThrough | app/crawler/crawler.py:185 | what a later state carries, an earlier state carries too |
| Crawl.PaginateAccumulates | app/crawler/crawler.py:112-190 | a finished or unfinished crawl keeps its starting rows in front and returns no duplicates |
| Crawl.RetriesBelowPageTen | app/crawler/crawler.py:134-135 | below page 10, failed fetches are retried forever on the same page |
| Crawl.AbandonsFromPageTen | app/crawler/crawler.py:136-137 | from page 10 on, a failed fetch moves on to the next manufacturer |
| Crawl.TaggedWithin | app/crawler/crawler.py:179 | rows drawn from tagged rows are tagged |
| Crawl.PaginateTagged | app/crawler/crawler.py:112-190 | unless it raises, a crawl returns only rows tagged with its eshop and one of its capitalised keys |
| Crawl.EurovaistineRows | app/crawler/crawler.py:112-190 | unless it raises, the Eurovaistine table has no duplicate rows and all rows are Eurovaistine rows of a listed manufacturer |
| Crawl.HerbaRows | app/crawler/crawler.py:268-336 | unless it raises, the Herba table has no duplicate rows and all rows are Herba rows of a listed manufacturer |
| Crawl.BenuAccumulates | app/crawler/crawler.py:195-264 | unless it raises, the Benu crawl keeps its starting rows in front and has no duplicates |
| Crawl.BenuRows | app/crawler/crawler.py:195-264 | unless it raises, all Benu rows are Benu rows of a listed manufacturer |
| Crawl.BenuOneRequestPerKey | app/crawler/crawler.py:211-217 | Benu never retries: one response per manufacturer suffices to finish |
| Persist.EshopColumn | app/crawler/crawler.py:32 | the eshop column of the batch, in order |
| Persist.ManufacturerColumn | app/crawler/crawler.py:45-47 | the manufacturer column of the batch, in order |
| Persist.NewNames | app/crawler/crawler.py:32-57 | `unique()` plus ON CONFLICT DO NOTHING: the inserted names are distinct and not yet present, and together with the present ones they cover the batch |
| Persist.AsEshops | app/crawler/crawler.py:36-43 | one eshop row per inserted name |
| Persist.AsManufacturers | app/crawler/crawler.py:50-57 | one manufacturer row per inserted name |
| Persist.Observation | app/crawler/crawler.py:85 | a batch row yields a price row exactly when its title names a product; that row carries the product's id, the price and the transaction time |
| Persist.PriceRow | app/crawler/crawler.py:84-102 | one batch row adds its observation when its title names a product, and nothing otherwise |
| Persist.PriceRows | app/crawler/crawler.py:84-104 | `WHERE d.id IS NOT NULL`: at most one price row per batch row, all stamped with the transaction time and pointing at products |
| Persist.PriceRowsAppend | app/crawler/crawler.py:84-102 | the store statement works row by row: the price rows of a concatenation are those of each part, in turn |
| Persist.PriceRowsAt | app/crawler/crawler.py:84-102 | the price row of batch row i, if any, comes after those of the earlier rows and before those of the later ones |
| Persist.RowsAddObservations | app/crawler/crawler.py:84-102 | every batch row whose title names a product adds that product's observation, with the row's price and the transaction time |
| Persist.Save | app/crawler/crawler.py:28-104 | the transaction commits exactly when the batch is non-empty and every value fits its `VARCHAR` column; otherwise it rolls back and changes nothing; on commit the tables become the committed transition |
| Persist.EshopNamesAppend | app/crawler/crawler.py:36-43 | appending rows appends their names |
| Persist.ManufacturerNamesAppend | app/crawler/crawler.py:50-57 | appending rows appends their names |
| Persist.NewNamesExtend | app/crawler/crawler.py:32-57 | after the insert, the names are still unique and include every name of the batch |
| Persist.NewNamesNone | app/crawler/crawler.py:40-41 | names already present insert nothing |
| Persist.InsertProductsExtends | app/crawler/crawler.py:59-82 | the product statement only appends |
| Persist.InsertProductsOnlyNew | app/crawler/crawler.py:59-82 | every inserted product comes from a batch row joined to its eshop and manufacturer, with a name and url not already present |
| Persist.ProductStepOnlyNew | app/crawler/crawler.py:59-82 | one row of the product statement keeps the existing products and adds at most its own product, whose name and url were both free |
| Persist.InsertProductsCovers | app/crawler/crawler.py:59-82 | every batch row whose eshop and manufacturer exist ends up with a product of its name or its url |
| Persist.InsertProductsUnique | app/crawler/crawler.py:78-79 | product names and urls stay unique |
| Persist.InsertProductsNone | app/crawler/crawler.py:59-82 | rows that cannot join or already conflict insert nothing |
| Persist.InsertProductsKeys | app/models.py:37-40 | inserted products point at existing manufacturers and eshops |
| Persist.PriceRowsAllResolved | app/crawler/crawler.py:84-104 | when every title names a product, there is one price row per batch row, each with the product of that title and the row's price |
| Persist.PriceRowsResolved | app/crawler/crawler.py:84-104 | when every row resolves, the price rows are the rows' observations, in order |
| Persist.PriceRowsFirst | app/crawler/crawler.py:84-102 | a first row whose title names a product puts its observation before those of the other rows |
| Persist.PriceRowsUnresolved | app/crawler/crawler.py:101 | rows that name no product add no price row |
| Persist.SavedKeepsRows | app/crawler/crawler.py:28-104 | a save only appends, and it leaves the analogs alone |
| Persist.SavedEshopsSpec | app/crawler/crawler.py:32-43 | the eshop table only grows, stays unique and covers the batch |
| Persist.SavedManufacturersSpec | app/crawler/crawler.py:45-57 | the manufacturer table only grows, stays unique and covers the batch |
| Persist.SavedCoversBatch | app/crawler/crawler.py:28-82 | after a save, every batch row's eshop and manufacturer exist, and so does a product with its title or url |
| Persist.SavedValid | app/crawler/crawler.py:28-104 | a save keeps every constraint of the schema |
| Persist.SavedUnique | app/models.py:35-67 | a save keeps names and urls unique |
| Persist.SavedProductKeys | app/models.py:37-40 | after a save, products point at existing manufacturers and eshops |
| Persist.SavedStoreKeys | app/models.py:78 | after a save, price rows point at existing products |
| Persist.ResaveAddsOnlyPrices | app/crawler/crawler.py:28-104 | saving the same batch again adds no eshop, manufacturer or product, only new price rows, among them the observation of every row whose title names a product |
| Persist.SaveCoveredKeepsRows | app/crawler/crawler.py:28-104 | when every row's eshop, manufacturer and product (by title or url) already exist, a save leaves those tables alone and only appends the rows' price observations |
| Persist.SavedKeepsChronology | app/crawler/crawler.py:85 | the store stays in date order, and the new rows carry the transaction time |
| Persist.StampedAppend | app/crawler/crawler.py:85 | appending rows stamped with a time no earlier than every existing row keeps date order |
| Observations.Pick | app/dash/data_table.py:21-27 | `DISTINCT ON … ORDER BY date DESC` (or ascending) picks a row of the product with the latest (or earliest) date, and none only when the product has no row |
| Observations.PickedPriceExtremal | app/dash/data_table.py:21-27 | the shown price is that of a latest (or earliest) observation |
| Observations.PickLatestDay | app/dash/data_table.py:21-27 | `DISTINCT ON … ORDER BY` the day descending picks an observation of the product on its latest day, and none only when the product has no row |
| Observations.Day | app/dash/data_table.py:21 | `date::date` is the day containing the timestamp |
| Observations.Round2 | app/dash/analogs.py:35 | `ROUND(…, 2)` is a whole number of cents over 100, within half a cent of its argument, and a half cent goes away from zero |
| Observations.RoundedCents | app/dash/analogs.py:35 | the cents lie within half a cent of the amount and keep its sign; a half cent rounds up for a positive amount and down for a negative one |
| Observations.RoundedCentsUnique | app/dash/analogs.py:35 | those bounds leave exactly one whole number of cents, so they pin the rounding down completely |
| DataTable.Kept | app/dash/data_table.py:21-27 | the observation a product's record shows is one of its own, and there is none exactly when it has none |
| DataTable.ReportRowsSound | app/dash/data_table.py:17-33 | in both views, every report row is the row of a product that joins its manufacturer and eshop |
| DataTable.ReportRowsTotal | app/dash/data_table.py:17-33 | in both views, when all products join, there is one report row per product, in id order |
| DataTable.ReportLatest | app/dash/data_table.py:17-33 | on valid tables, the corrected report lists each product with its name, url, eshop and latest price, and the date is missing exactly when the price is |
| DataTable.ReportDate | app/dash/data_table.py:20-27 | in the corrected report, a shown date is the day of a latest observation of that product, shown with its price |
| DataTable.ReportAsWrittenLatestDay | app/dash/data_table.py:17-33 | as written, each product appears with its name, url and eshop; the price is NULL exactly when the product was never observed, and otherwise is that of an observation on its latest day, which is the date shown |
| DataTable.AsWrittenShowsEarlierSameDayPrice | app/dash/data_table.py:26 | on a product observed at 12.0 and, earlier the same day, at 10.0, the query as written may show 10.0, which is not the latest price; the corrected report shows 12.0 |
| DataTable.ReportNamesDistinct | app/dash/data_table.py:20 | in both views, no product name appears twice |
| PriceIndex.RunSource | app/dash/price_index.py:302-320 | one `try` block: a crawl that raises leaves the database unchanged, a finished crawl is saved, and an unfinished crawl never returns |
| PriceIndex.UpdateData | app/dash/price_index.py:298-322 | no click or a count below 1 gives `no_update`; otherwise the three crawls are saved in order, each in its own transaction, and the callback returns `[0, 0]` |
| PriceIndex.ExtendsTransitive | app/dash/price_index.py:298-322 | append-only growth composes |
| PriceIndex.StepSpec | app/dash/price_index.py:302-320 | each block only appends and keeps the constraints |
| PriceIndex.UpdatedSpec | app/dash/price_index.py:298-322 | an update only appends, never touches the analogs and keeps the constraints |
| PriceIndex.RecordsExtends | app/dash/price_index.py:298-322 | a later block never loses what an earlier block recorded |
| PriceIndex.StepRecords | app/crawler/crawler.py:28-104 | after a finished crawl whose values fit their columns is saved, every row's eshop, manufacturer and product are in the tables; one value too wide loses the whole crawl |
| PriceIndex.UpdatedRecordsFinished | app/dash/price_index.py:298-322 | every crawl that finished with values that fit their columns, with no earlier crawl still running, is recorded after the update, even when another crawl raised |
| PriceIndex.StepChronology | app/dash/price_index.py:302-320 | a block keeps the store in date order, no later than its time |
| PriceIndex.UpdatedChronology | app/dash/price_index.py:298-322 | with increasing transaction times, the store stays in date order |
| PriceIndex.Points | app/dash/price_index.py:203-216 | at most one point per observation |
| PriceIndex.PointsMembers | app/dash/price_index.py:203-216 | the plotted points are exactly those of joined observations of the selected eshops and manufacturers |
| PriceIndex.PointsCount | app/dash/price_index.py:203-216 | each point is plotted as many times as there are observations that give it |
| PriceIndex.PointsPrefix | app/dash/price_index.py:203-216 | points come in store order: those of an earlier prefix of the store come first |
| PriceIndex.Graph1 | app/dash/price_index.py:199-201 | a figure is drawn exactly when a manufacturer selection and an eshop are both given |
| PriceIndex.Graph2 | app/dash/price_index.py:247-249 | a figure is drawn exactly when an eshop selection and a manufacturer are both given |
| PriceIndex.Graph1Selects | app/dash/price_index.py:203-216 | a point is plotted exactly when it comes from an observation of the chosen eshop and one of the chosen manufacturers, with the series set to the manufacturer |
| PriceIndex.Graph2Selects | app/dash/price_index.py:254-267 | a point is plotted exactly when it comes from an observation of the chosen manufacturer and one of the chosen eshops, with the series set to the eshop |
| PriceIndex.Count | app/dash/price_index.py:217 | a (date, series) group is non-empty exactly when some point falls in it |
| PriceIndex.TimesIsProduct | app/dash/price_index.py:217 | repeated addition is multiplication |
| PriceIndex.SumWithin | app/dash/price_index.py:217 | a group's total lies between count times the lowest price and count times the highest |
| PriceIndex.MeanWithin | app/dash/price_index.py:217 | the plotted mean of a group lies between its lowest and its highest price |
| Analogs.Grid.constructor | app/dash/analogs.py:86-87 | the grid starts holding the given rows |
| Analogs.Options | app/dash/analogs.py:16-28 | the product options are "eshop name", one per joined product, in product order |
| Analogs.OptionResolves | app/dash/analogs.py:16-28 | choosing a product's option and cutting at the first space resolves to that product's own id, when the eshop name has no space |
| Analogs.MaxId | app/dash/analogs.py:70-74 | the largest id in the grid, reached by some row, and 0 for an empty grid |
| Analogs.AddRow | app/dash/analogs.py:68-83 | a positive click count appends one blank row with id one above the maximum; otherwise the rows are unchanged; the grid then holds the result |
| Analogs.AddRowFresh | app/dash/analogs.py:68-83 | the new row's id is unused, so ids stay unique, and the old rows stay in front |
| Analogs.RemovedIds | app/dash/analogs.py:95-96 | the ids of exactly the previous rows missing from the current rows |
| Analogs.ShowRemovedRows | app/dash/analogs.py:90-106 | without previous data, or when nothing was removed, nothing changes; otherwise exactly the removed ids' analogs are deleted, the rest are kept unchanged, and the grid holds the current rows |
| Analogs.CompleteRows | app/dash/analogs.py:116-126 | keeps exactly the rows with both product names non-empty |
| Analogs.CompleteRowsAppend | app/dash/analogs.py:116-126 | the filter keeps order and multiplicity: the rows kept from a concatenation are those kept from each part, in turn |
| Analogs.CompleteRowsOne | app/dash/analogs.py:116-126 | a single row is kept exactly when both its names are non-empty |
| Analogs.ProductNameOf | app/dash/analogs.py:125 | a product name is recovered exactly when the cell is text containing a space |
| Analogs.RequestOf | app/dash/analogs.py:124-127 | a row yields an upsert request exactly when both names split and the row has an id |
| Analogs.ResolvedLink | app/dash/analogs.py:125-138 | a request survives the NULL filter exactly when both names name products, and then links those products' ids under the row's id |
| Analogs.LinkIds | app/dash/analogs.py:139 | the ids of the links, in order |
| Analogs.UpdateAnalogTable | app/dash/analogs.py:109-147 | no click gives `no_update`; a failing statement changes nothing; otherwise the analogs become the upsert of the resolved rows and the grid is reloaded with the analog query as written |
| Analogs.JoinAnalog | app/dash/analogs.py:35-58 | an analog row shows the analog's own id, both products' display names, the chosen observation prices and their rounded difference; it exists exactly when both endpoints are set |
| Analogs.GridRows | app/dash/analogs.py:146-147 | one grid record per analog row, in order |
| Analogs.RowsOfSound | app/dash/analogs.py:31-46 | each row is the join of one of the ids |
| Analogs.RowsOfComplete | app/dash/analogs.py:31-46 | every id the join keeps has a row |
| Analogs.RowsOfSorted | app/dash/analogs.py:43 | rows come in ascending id order |
| Analogs.JoinerKeepsIds | app/dash/analogs.py:35 | a joined row carries the id it was joined for |
| Analogs.AnalogRowsOnePerLink | app/dash/analogs.py:31-61 | in both views, on valid tables, there is exactly one row per analog with both endpoints set, in ascending id order |
| Analogs.AnalogRowsShowLatest | app/dash/analogs.py:31-61 | each corrected row shows its analog's two products by display name, both latest prices, and a difference within half a cent of theirs, present exactly when both prices are |
| Analogs.AnalogRowsAsWrittenShowEarliest | app/dash/analogs.py:43 | as written, "Last Price 1" is the price of product 1's earliest observation |
| Analogs.AsWrittenShowsStalePrice | app/dash/analogs.py:43 | on a two-observation example, the query as written shows 10.0 where the latest price is 12.0 |
| Analogs.BlankRowIgnored | app/dash/analogs.py:116-118 | a freshly added blank row does not change what a save does |
| Analogs.LinksSound | app/dash/analogs.py:128-138 | every upserted link comes from a request and points at products |
| Analogs.LinksComplete | app/dash/analogs.py:128-138 | every request that resolves is upserted |
| Analogs.LinksTotal | app/dash/analogs.py:128-138 | when every request resolves, the links are the requests' links, in order |
| Analogs.UpsertSpec | app/dash/analogs.py:133-140 | the upsert keeps other analogs, and inserts or overwrites exactly the links' ids with their endpoints |
| Analogs.UpsertKeepsEndpoints | app/dash/analogs.py:133-140 | upserting links that point at products keeps the endpoints valid |
| Analogs.SaveGridKeepsValid | app/dash/analogs.py:123-142 | a successful save keeps every constraint of the schema |
| Analogs.AsGridRowNames | app/dash/analogs.py:47-58 | a grid record shows the two display names in the name columns |
| Analogs.ViewRowRequest | app/dash/analogs.py:124-138 | a shown analog row, saved back, resolves to the same link |
| Analogs.GridRowRequest | app/dash/analogs.py:124-138 | a grid record naming two products by display name resolves to the link between them |
| Analogs.NamesResolve | app/dash/analogs.py:125 | under unique product names, looking up two products' names gives back their ids |
| Analogs.NameRequest | app/dash/analogs.py:125 | a display name is non-empty, and splitting it gives back the product's name |
| Analogs.ShownRowRequest | app/dash/analogs.py:57-58 | a row that shows an analog's products resolves back to that analog's link |
| Analogs.ViewRequests | app/dash/analogs.py:116-147 | in both views, every row of the refreshed grid is complete and yields a request, and each request resolves to its analog's link |
| Analogs.ResaveViewIsNoOp | app/dash/analogs.py:109-147 | in both views, saving the grid as loaded leaves the analogs unchanged (an empty grid fails), when no eshop name contains a space |
| Analogs.ViewLinksAgree | app/dash/analogs.py:128-140 | links resolved from rows in ascending id order have distinct ids and agree with the stored analogs |
| Analogs.UpsertAgreeing | app/dash/analogs.py:139-140 | upserting links the table already holds changes nothing |
| Auth.Usernames | app/models.py:20 | the username column, in order |
| Auth.RegisterError | app/auth.py:68-90 | registration is accepted exactly when the username has 4 to 14 characters, the passwords match, and the password has 6 to 14 characters with an upper-case letter, a lower-case letter and a digit |
| Auth.FirstBroken | app/auth.py:68-90 | an if/elif chain reports the first broken rule's message, and nothing exactly when every rule holds |
| Auth.RegisterErrorIsFirstBroken | app/auth.py:68-90 | the registration message is the first failing rule's, in the code's order |
| Auth.Register | app/auth.py:56-104 | a logged-in user is redirected; a GET renders the form; a broken rule flashes its message; otherwise a new user is added, logged in and redirected, or the commit fails on a taken username |
| Auth.RegisterKeepsValid | app/auth.py:91-102 | registration keeps usernames unique |
| Auth.RememberFlag | app/auth.py:21-25 | "remember me" is set exactly when the form value is "on" |
| Auth.FindUser | app/auth.py:27-35 | finds the user with the given name, and none exactly when the name is missing or unknown |
| Auth.Login | app/auth.py:10-46 | a logged-in user is redirected, a GET renders the form, and a POST never changes the users |
| Auth.LoginSpec | app/auth.py:17-44 | a POST logs in exactly when a user of that name has a matching password, with the remember flag; otherwise it flashes the invalid-login message and changes nothing |
| Auth.RegisterThenLogin | app/auth.py:56-104 | a user just registered can log in with the same password |

## Left out

- HTTP requests and XPath evaluation are not modelled. A fetch is a scripted response (a failed fetch, or the XPath results of one page). `get_link`'s timeout and redirect settings are left out with it.
- The responses are one queue consumed in request order, not a function of the requested manufacturer and page. A server whose answer depends on the url is modelled by the queue of its answers in the order the crawler asks.
- Crawl.CrawlByElements, Crawl.CrawlByPages: the loops retry a failed fetch below page 10 without bound. The model stops when the scripted responses run out and reports the rows so far as unfinished. A crawl that never ends is therefore represented, not proved impossible.
- Text.ParseDecimal: Python's `float` also accepts `_` digit separators (`1_000.5`); the model does not.
- Prices are exact decimals (`real`), not IEEE doubles. `float`'s exponent, `inf` and `nan` forms and its surrounding-whitespace rules beyond `strip` are not modelled. Text.ParseDecimal accepts an optional sign, digits and at most one decimal point.
- `isupper`, `islower`, `isdigit`, `capitalize` and `strip` are modelled on ASCII letters, digits and the usual whitespace characters, not on all of Unicode.
- SQL quoting and injection are not modelled. Names are compared as whole strings, the way the quoted literals are meant to be read.
- When several observations share the extreme date, PostgreSQL's `DISTINCT ON` picks one of them arbitrarily. Observations.Pick fixes one of them, and so does Observations.PickLatestDay among the observations of the latest day.
- Analogs.Options: `get_products` in app/dash/analogs.py has no ORDER BY, so PostgreSQL may return the options in any order. The model lists them in product-id order.
- Persist.InsertProducts: the order in which `INSERT … SELECT` inserts its rows is unspecified. The model inserts in batch order. That order decides which of two batch rows sharing a title or url gets the product, and the relative ids of new products (Persist.InsertProductsCovers, Persist.InsertProductsOnlyNew and DataTable.ReportRowsTotal depend on it).
- Ids are faithful only up to relabelling. A serial column also consumes ids for rows that `ON CONFLICT DO NOTHING` then drops, so real ids have gaps, while the model's positional ids are consecutive.
- Persist.Saved: PostgreSQL stores a value that fits its column only once its excess characters (all spaces) are cut off. The model stores such a value whole.
- Schema.Valid does not bound column widths. Widths are checked where a crawl is saved (Persist.Fits). Usernames are already limited to 14 characters by registration, and password hashes are parameters.
- Timestamps are plain seconds, with no time zone. `date::date` and `to_char(date, 'YYYY-mm-dd')` both become the day number.
- Figures are not modelled: `px.line`, layouts and colours. PriceIndex.Graph1 and PriceIndex.Graph2 give the points to plot, and PriceIndex.Mean gives the value of each group.
- Password hashing is a parameter. The stored hash is passed in, and checking is a function argument.
- `logout`, `load_user` and the Flask-Login session machinery are reduced to a current-session field.
- Missing form fields on registration (`None` from `request.form.get`) are not modelled. The code would raise on `len(None)`.
- `CrawlerGintarine` defines no crawl and is not modelled.
- Dash wiring is not modelled: callbacks, `no_update` handling inside Dash, `long_callback` progress, layouts and the module-level `product_names` and `analog_df` caches. `update_analog_data` is the grid's `data` field.
- `print` and stderr logging are not modelled.
- Ids of manufacturers, eshops and products are positions plus one, which is sound because those rows are only ever appended; the relabelling above applies to them. Analog ids are map keys, as the grid assigns them.
- `User.query.filter_by(...).first()` raising (a database error) is not modelled, so that branch of `login` is left out.

## Findings

| source | as written | input that shows it | evidently intended | confidence | as-written member | corrected member |
|---|---|---|---|---|---|---|
| app/dash/analogs.py:43 | `ORDER BY analog.id, store_1.date, store_2.date DESC`: `DESC` applies only to `store_2.date`, so `DISTINCT ON` keeps product 1's earliest observation | one analog linking product 1 (prices 10.0 at t=100 and 12.0 at t=200) to product 2 (11.0 at t=100): "Last Price 1" shows 10.0 | both "Last Price" columns show the latest price, so 12.0 | not executed | Analogs.AnalogRowsAsWritten, Analogs.AsWrittenShowsStalePrice | Analogs.AnalogRows, Analogs.AnalogRowsShowLatest |
| app/dash/data_table.py:26 | `ORDER BY product.id, date DESC`: the bare name `date` is the output column `date::date`, so rows are sorted by day and `DISTINCT ON` keeps any observation of the latest day | product 1 observed at 12.0 and, earlier the same day, at 10.0: "Last Price" may show 10.0 | "Last Price" shows the latest observation's price, 12.0 | not executed | DataTable.ReportAsWritten, DataTable.AsWrittenShowsEarlierSameDayPrice | DataTable.Report, DataTable.ReportLatest |
