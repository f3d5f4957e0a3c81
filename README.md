# Reconciliation engine of the kant.ru scraper, in Dafny

This project models the part of `main.py` that decides what to write to the
store on each run. The scraper watches a running-shoe catalog and keeps three
tables up to date: products, prices, and the stock of one outlet. Each table
row carries a staleness *rating*. The model covers four pieces:

- **Products sync** (`Main.update_products_table`). It diffs the listed product
  URLs against the store's URLs and its low-rated URLs, which gives three
  pairwise disjoint sets:
  - URLs no longer listed are rated 1;
  - returning low-rated URLs get the normal rating `RATING`;
  - genuinely new URLs are parsed and inserted.
- **Prices sync** (`Main.update_prices_table`). Codes never priced get a first
  row: rating `RATING` when the price is positive, 1 otherwise. Every other
  fetched `(code, price)` is compared against the stored rows by the source's
  nested loop with `break`. A moved price yields one row, rated the stored
  rating plus one (1 for a price of 0). An unchanged price yields nothing.
- **Instock sync** (`Main.update_instock_table`). This is a diff by code, then by
  size, at the outlet `SHOPS[0]`, producing three batches:
  - `new`: codes never recorded and sizes never recorded, at `RATING`;
  - `updated`: a known size with a new count, at rating plus one;
  - `not_instock`: a vanished size, zeroed, at rating plus one. This batch is
    then filtered by the store's list of zero-count codes.
- **Brand filter** (`Main.set_brand_parameter`). It keeps the catalog URLs that
  have a `/`-segment naming the brand, either as the whole segment or as the
  text after the segment's first `-`.

The model has six modules:
- `Common`: rows and write batches.
- `BrandFilter`, `ProductsSync`, `PricesSync`, `InstockSync`: reference functions
  and lemmas, plus the loop methods proved against those functions.
- `Engine`: the `Main` class, with its URL list, listing cache and brand, and
  the three update methods.

The parser's answers and the store's reads are parameters. The update methods
return the writes as a list of `Write` batches. `Engine.Main.UpdatePricesTable`
and `Engine.Main.UpdateInstockTable` run the source's loops and are proved equal
to the reference functions `PricesSync.PricesWrites` and
`InstockSync.InstockBatches`. The properties are proved about those functions.
The two nested loops with `break` keep their shape, but each inner loop is a
method of its own (`PricesSync.AppendPriceChange`, `InstockSync.AppendUpdated`)
that appends at most one row and then returns where the source breaks.

Behaviour of the code a reader might not expect:
- The restore batch is `lowRated ∩ (listed − stored)`. A low-rated URL that the
  store also lists among its URLs is therefore never restored. With stored URLs
  `{A, B}`, low-rated `{B}` and listing `{B, C}`, the code restores nothing, not
  `{B}` (`ProductsSync.ScenarioStoredLowRated`). Restoring needs the store to
  report low-rated URLs outside its URL list (`ProductsSync.ScenarioReturning`).
- The zero-count filter drops a `not_instock` row whenever its *code* is among
  the zero-count codes. It does not look at the size.
- A new stock row always gets `RATING`, even when its count is 0.
- A product that is no longer listed is written with rating 1 on every run in
  which the store still reports it. Its rating is never incremented.

## Model

| member | source | states |
|---|---|---|
| `Engine.Main.constructor` | main.py:32-42 | starts with the catalog URLs, an empty listing cache and 30 pages per brand, then applies the brand filter when a brand is given |
| `Engine.Main.SetBrandParameter` | main.py:59-85 | with no brand, nothing changes; with a brand, records it for the object and the store and keeps exactly the URLs naming `brand.lower()`; the new URL list is always a subsequence of the old one |
| `Engine.Main.UpdateProductsTable` | main.py:87-131 | with no store connection it returns None and writes nothing; otherwise it parses the listing only when the cache is empty, keeps the result in the cache, returns True and issues exactly the writes of the products diff |
| `Engine.Main.UpdatePricesTable` | main.py:133-191 | returns None without a store and False with no writes on an empty products table; otherwise it returns True and its nested loop issues exactly the price writes of `PricesWrites` |
| `Engine.Main.UpdateInstockTable` | main.py:193-287 | returns None without a store and False with no writes on an empty products table; otherwise it returns True and issues exactly the writes of the three instock batches |
| `BrandFilter.Split` | main.py:83 | `str.split('/')` gives at least one piece, and no piece contains the separator |
| `BrandFilter.JoinSplit` | main.py:83 | joining the pieces of a split with the separator gives the URL back |
| `BrandFilter.SplitJoin` | main.py:83 | splitting a join of separator-free pieces gives the pieces back |
| `BrandFilter.Partition` | main.py:84 | `str.partition('-')`: the three parts concatenate to the segment, the head has no `-`, and the tail is empty when there is no `-` |
| `BrandFilter.Lower` | main.py:77 | the lowered name has the same length and no upper-case ASCII letter; every other character is kept, and an upper-case letter becomes the lower-case letter at the same place in the alphabet |
| `BrandFilter.Unhyphenated` | main.py:83 | holds exactly the segments without `-` |
| `BrandFilter.HyphenTails` | main.py:84 | holds exactly the texts after the first `-` of the hyphenated segments |
| `BrandFilter.NamesBrandIff` | main.py:80-85 | a URL is kept iff one of its segments is the name (no `-`), or has the name after its first `-` |
| `BrandFilter.FilterByBrand` | main.py:80-85 | the result holds exactly the URLs naming the brand and is a subsequence of the list, in the same order |
| `BrandFilter.FilterByBrandCounts` | main.py:80-85 | every copy of a URL naming the brand is kept, and no copy of any other URL |
| `BrandFilter.FilterByBrandIdempotent` | main.py:48-50 | setting the same brand again leaves the URL list unchanged |
| `Common.FirstMatch` | main.py:178-184 | the element a `for … if … break` scan stops at is in the list and passes the test; there is none iff no element passes |
| `Common.FirstMatchIsFirst` | main.py:178-184 | a passing element with no passing element before it is the one the scan stops at |
| `ProductsSync.PlanProducts` | main.py:104-110 | the three write sets are pairwise disjoint; restored plus new URLs are exactly the listed URLs missing from the store; the URLs rated down are exactly the stored URLs no longer listed; restored URLs were low-rated and new ones were not |
| `ProductsSync.ProductWrites` | main.py:111-119 | the rate-to-1 and rate-to-normal writes are issued iff their sets are non-empty; details are inserted only for the new URLs and only when the parse returns some; no write is empty; at most three writes |
| `ProductsSync.ProductWritesInOrder` | main.py:111-119 | the products writes come in the source's order: rate to 1, then rate to normal, then insert details, each at most once |
| `ProductsSync.RestoreNeedsSeparateReads` | main.py:105-109 | when every low-rated URL is among the store's URLs, nothing is restored |
| `ProductsSync.ReturningUrl` | main.py:106-110 | a listed low-rated URL outside the store's URL list is restored and not re-inserted |
| `ProductsSync.ScenarioStoredLowRated` | main.py:104-110 | stored `{A, B}`, low-rated `{B}`, listing `{B, C}`: A is rated 1, C is new, nothing is restored |
| `ProductsSync.ScenarioReturning` | main.py:104-110 | stored `{A}`, low-rated `{B}`, listing `{B, C}`: A is rated 1, B is restored, C is new |
| `PricesSync.PairsWithCodes` | main.py:160 | keeps exactly the `(code, url)` pairs whose code is selected, in table order |
| `PricesSync.PairsWithCodesCounts` | main.py:160 | every copy of a pair whose code is selected is kept, and no copy of any other pair |
| `PricesSync.ParserRequests` | main.py:158-160 | first prices are asked for exactly the product pairs with no price row; current prices for exactly those with one |
| `PricesSync.FirstPriceRows` | main.py:162-166 | one first-price row per fetched pair, in order, keeping its code and price and the run's time stamp, rated `RATING` for a positive price and 1 otherwise |
| `PricesSync.FirstRating` | main.py:164 | a first price is rated `RATING` when positive and 1 otherwise, so at least 1 when `RATING` is |
| `PricesSync.FirstMismatch` | main.py:178-179 | the row the inner loop stops at has the fetched code and a different price; there is none iff every stored row of that code has the fetched price |
| `PricesSync.FirstMismatchIsFirst` | main.py:178-179 | the row the inner loop stops at is the first stored row of the fetched code with another price |
| `PricesSync.ChangedRating` | main.py:180-183 | a changed price is rated the stored rating plus one, or 1 when the new price is 0, so at least 1 for a non-negative stored rating |
| `PricesSync.AppendPriceChange` | main.py:178-184 | the inner loop appends one row for the first stored row of the fetched code with another price, rated that row's rating plus one (1 for a price of 0), and stops there; it appends nothing when no stored row differs |
| `PricesSync.PriceChanges` | main.py:176-184 | the change rows of the nested loop: at most one per fetched pair, because of the `break` |
| `PricesSync.CollectPriceChanges` | main.py:176-184 | the outer loop over the fetched pairs builds exactly the change rows of `PricesSync.PriceChanges` |
| `PricesSync.PriceChangeJustified` | main.py:179-183 | every change row answers a fetched pair whose price differs from a stored row of the same code, and is rated that row's rating plus one, or 1 for a price of 0 |
| `PricesSync.PriceChangeComplete` | main.py:177-184 | every fetched pair whose price differs from a stored price of its code produces a row |
| `PricesSync.UnchangedPricesWriteNothing` | main.py:177-184 | when every fetched price equals the stored prices of its code, no row is produced |
| `PricesSync.RerunWritesNothing` | main.py:172-187 | re-running the comparison against the store updated with its own output writes nothing, for distinct fetched codes |
| `PricesSync.NewPriceRows` | main.py:157-166 | first prices are written only when some listed code has no price row, stamped with the run's time and rated `RATING` or 1 |
| `PricesSync.ChangedPriceRows` | main.py:171-184 | changed prices are written only when some listed code has a price row, stamped with the run's time, and only for codes already priced |
| `PricesSync.ChangesOfPricedCodes` | main.py:177-183 | every change row carries the run's time stamp and the code of a stored price row |
| `PricesSync.TwoBatches` | main.py:167-186 | each of the two `to_prices` calls is issued iff its rows are non-empty, the first prices before the changed prices, and nothing else is written |
| `PricesSync.PricesWrites` | main.py:157-187 | at most two writes, none empty; each is the batch of first prices or the batch of changed prices, issued iff it has rows, first prices before changed prices |
| `PricesSync.FirstRowsRated` | main.py:164 | with a positive `RATING`, every first-price row is rated at least 1 |
| `PricesSync.ChangesRated` | main.py:180-183 | with non-negative stored ratings, every change row is rated at least 1 |
| `PricesSync.PriceRatingsPositive` | main.py:164-183 | with a positive `RATING` and non-negative stored ratings, every written price row has a positive rating |
| `InstockSync.LastStock` | main.py:226-230 | there is no stock for a code iff no fetched answer for it has the outlet |
| `InstockSync.LastStockIsLast` | main.py:226-230 | the stock kept for a code is the outlet's stock in an answer for it, and no later answer for it has the outlet |
| `InstockSync.FreshLines` | main.py:229-230 | the fetched `(size, count)` pairs are kept in order, each stamped with the run's time and `RATING` |
| `InstockSync.Put` | main.py:240-242 | `d[k] = v` on an insertion-ordered dictionary keeps the table well formed, maps `k` to `v`, and adds `k` to the keys only when it is new |
| `InstockSync.PutKeepsOrder` | main.py:240-242 | the existing key order stays as a prefix and at most one key is added after it, so a new key goes last |
| `InstockSync.LoadedTable` | main.py:223-230 | a code is kept iff some fetched answer for it has the outlet; its lines are the `(size, count)` pairs of the last such answer, stamped with the run's time and `RATING`; the code list is duplicate-free and matches the map |
| `InstockSync.BuildLoaded` | main.py:223-230 | the nested loops build exactly that table |
| `InstockSync.LinesOf` | main.py:239-242 | a code's stored lines are empty iff no stored row has that code |
| `InstockSync.LastUpdateTable` | main.py:237-242 | a code is in the table iff some stored row has it, and its lines are exactly its stored rows, in the order read; the code list is duplicate-free and matches the map |
| `InstockSync.BuildLastUpdate` | main.py:237-242 | the loop builds exactly that table |
| `InstockSync.FirstChanged` | main.py:256-257 | the fetched line the inner loop stops at has the stored size and another count; there is none iff every fetched line of that size has the stored count |
| `InstockSync.FirstChangedIsFirst` | main.py:256-257 | the fetched line the inner loop stops at is the first one of the stored size with another count |
| `InstockSync.UpdatedRows` | main.py:255-259 | at most one `updated` row per stored line, each with the code and the run's time stamp |
| `InstockSync.UpdatedJustified` | main.py:255-258 | every `updated` row has a stored line of its size with another count, whose rating plus one it carries, and a fetched line with its size and count |
| `InstockSync.UpdatedComplete` | main.py:255-259 | a stored line whose size is fetched with another count yields an `updated` row at its rating plus one |
| `InstockSync.AppendUpdated` | main.py:256-259 | the inner loop appends one `updated` row for the first fetched line of the stored line's size with another count, at the stored rating plus one, and stops there; it appends nothing when there is none |
| `InstockSync.CollectUpdated` | main.py:255-259 | the outer loop over the stored lines builds exactly the `updated` rows of one code |
| `InstockSync.MissingRows` | main.py:263-266 | the `not_instock` rows of a code are exactly the stored lines whose size is no longer fetched, with count 0 and rating plus one |
| `InstockSync.NewSizeRows` | main.py:264-268 | the `new` rows of a known code are exactly the fetched lines whose size was never stored, at `RATING` |
| `InstockSync.SizeClassesDisjoint` | main.py:261-268 | within a code, updated sizes are on both sides, zeroed sizes only in the store, new sizes only in the fetch |
| `InstockSync.EntryRows` | main.py:248 | `(code, *line)`: one row per line, in order, each with the code and giving back exactly that line |
| `InstockSync.LinesOfEntryRows` | main.py:239-248 | reading back the rows written for a code gives its lines, in order |
| `InstockSync.NewCodeRows` | main.py:245-248 | rows are only written for codes the store has not recorded |
| `InstockSync.CollectNewCodes` | main.py:245-248 | the loop builds exactly those rows |
| `InstockSync.KnownCodesDiff` | main.py:251-268 | every row of the three per-code batches belongs to a code that is both stored and fetched |
| `InstockSync.KnownCodesOfCode` | main.py:251-268 | for distinct stored codes, a code both stored and fetched gets exactly its `updated`, `not_instock` and `new` rows from the per-code diff, and every other code none |
| `InstockSync.CollectKnownCodes` | main.py:251-268 | the loop over the stored codes builds exactly those batches |
| `InstockSync.DropZeroCodes` | main.py:271-273 | keeps exactly the rows whose code is not a zero-count code, in order |
| `InstockSync.OfCodeDropZero` | main.py:271-273 | the filter removes every row of a zero-count code and keeps the rows of any other code, in order |
| `InstockSync.ComputeInstock` | main.py:222-273 | the loops and the filter compute exactly the three batches of `InstockSync.InstockBatches` |
| `InstockSync.InstockBatches` | main.py:222-273 | `new` rows only for codes fetched at the outlet; `updated` and `not_instock` rows only for codes both fetched and stored; `not_instock` rows never for a zero-count code |
| `InstockSync.InstockWrites` | main.py:274-279 | each non-empty batch is written once and nothing else is written |
| `InstockSync.InstockWritesInOrder` | main.py:274-279 | the instock writes come in the source's order: `new`, then `updated`, then `not_instock`, each at most once |
| `InstockSync.NewCodeRowsOfCode` | main.py:245-248 | among the `new` rows of never-recorded codes, those of one such fetched code are exactly its fetched lines |
| `InstockSync.FreshRows` | main.py:230-248 | rows made from freshly fetched lines carry the run's time stamp and `RATING` |
| `InstockSync.NewCodeBypass` | main.py:244-248 | a fetched code with no stored rows has its lines written as fetched, at `RATING`, and none of its rows is `updated` or `not_instock` |
| `InstockSync.KnownCodeBatches` | main.py:222-273 | a code both fetched at the outlet and stored gets exactly its changed sizes as `updated`, its never-stored sizes as `new`, and its vanished sizes as `not_instock` unless it is a zero-count code |
| `InstockSync.ScenarioLoaded` | main.py:223-230 | one fetched answer with size 90 (count 2) at the outlet gives one code with one fresh line |
| `InstockSync.ScenarioStored` | main.py:237-242 | two stored rows of one code, sizes 90 and 100, give one code with both lines, in the order read |
| `InstockSync.ScenarioSizes` | main.py:251-268 | stored sizes 90 (count 3) and 100 (count 0) against fetched size 90 (count 2): 90 is updated, 100 is zeroed, nothing is new |
| `InstockSync.ScenarioDiff` | main.py:244-268 | the same tables give no `new` rows, and the `updated` and `not_instock` rows above |
| `InstockSync.ScenarioBatches` | main.py:222-273 | the same fetch and store give those batches, with the zeroed row then filtered by the zero-count codes |
| `InstockSync.ZeroOutScenario` | main.py:251-273 | stored sizes 90 (count 3) and 100 (count 0), fetched size 90 (count 2): size 90 is updated to 2 and size 100 is zeroed, both at rating plus one; the zeroing row is dropped once the code is a zero-count code |
| `InstockSync.ZeroFilterOnlyNotInstock` | main.py:271-279 | the zero-count codes leave `new` and `updated` untouched and only remove `not_instock` rows of those codes |
| `InstockSync.LastUpdateRated` | main.py:239-242 | stored rows with non-negative ratings give a table whose lines all have non-negative ratings |
| `InstockSync.LoadedRated` | main.py:226-230 | every fetched line is rated `RATING` or more |
| `InstockSync.NewCodeRowsRated` | main.py:245-248 | when every fetched line is rated at least some bound, so is every row of the never-recorded codes |
| `InstockSync.KnownCodesRated` | main.py:251-268 | with a positive `RATING` and non-negative stored ratings, every row of the per-code batches is rated at least 1 |
| `InstockSync.InstockRatingsPositive` | main.py:230-268 | with a positive `RATING` and non-negative stored ratings, every written stock row has a positive rating |

## Left out

- The parser (`Parser.parse_main`, `parse_details`, `parse_price`, `parse_available`) and the event loop that runs it are out of scope. `parser.py` is not part of this model. Its answers are parameters: functions of the request for the listing, the details and the prices, and the fetched list for the stock.
- The store (`SQLite`, `db.py`) is not part of this model. Its reads are parameters and its writes are the returned `Write` batches. What `get_products_urls` and the other queries select is not modelled.
- The store connection itself is modelled only as the `connected` flag that makes the update methods return None. Closing it through the `brand` deleter is left out, and so are the `brand` getter and deleter.
- The `self.db is not None` test in `set_brand_parameter` is always true after construction, so the brand is always forwarded to the store.
- The interleaving of writes and parser calls is left out. The source writes the rating updates (main.py:112-115) before it calls `parse_details` (main.py:117), and the first prices (main.py:167-168) before it calls `parse_price` for the changed prices (main.py:174). If the later parser call fails, the earlier writes stay in the store. The model returns all of a method's writes at once, so that partial state is not captured.
- The `manager` retry loop is left out: `ClientConnectionError`, `time.sleep(20)` and the `sys.argv` flags are I/O and control plumbing.
- `DEBUG` printing and timing are left out. The `time.strftime` time stamp is an opaque parameter.
- `float(...)` parsing of sizes is left out: a size is an integer in one canonical numeric form, so equal sizes are equal values.
- The outlet-local code `int(url.split('/')[5])` is left out: the stock parser's answer is a parameter, and the products' `(code, url)` pairs matter only through whether they are empty.
- The outer `shop` level of `loaded_instock` and `last_update_instock` is left out: the tracked outlet is the only key, so each is one code table.
- `settings.RATING`, `SHOPS[0]` and `BRANDS_URLS` are constructor parameters of `Main`; `settings.py` is not part of this model.
- Python exceptions on malformed input (a non-numeric size, a short URL, an empty `SHOPS`) are not modelled.
- `BrandFilter.Lower`: models `str.lower()` on ASCII letters only; Unicode case mapping is not modelled.
- `PricesSync.RerunWritesNothing`: is stated for fetched lists with distinct codes and for a store whose latest row per code is the last one written; a fetch that answers one code twice with two prices is not idempotent in the source either.
