/** The `Main` object: the catalog URLs it scrapes, its cache of listed URLs,
    its brand, and the three update methods. What the parser and the store
    would return is passed in; what the store would be asked to write is
    returned as a list of write batches. */
module Engine {
  import opened Common
  import BrandFilter
  import ProductsSync
  import PricesSync
  import InstockSync

  class Main {
    /** The catalog entry points to scrape. */
    var urlList: seq<Url>
    /** The listed URLs of the last successful listing parse, kept across reconnects. */
    var fromParseMain: seq<Url>
    /** The brand the run is restricted to, if any. */
    var brand: Option<string>
    /** The brand forwarded to the store. */
    var storeBrand: Option<string>
    /** The number of catalog pages parsed per brand. */
    const maxPagination: int
    /** Whether a store connection is present. */
    const connected: bool
    /** The normal rating of a fresh, available item. */
    const normalRating: int
    /** The outlet whose stock is tracked. */
    const shop: Shop

    constructor (brandsUrls: seq<Url>, brand: Option<string>, normalRating: int, shop: Shop, connected: bool)
      ensures this.brand == brand && storeBrand == brand
      ensures urlList == if brand.Some? then BrandFilter.FilterByBrand(brandsUrls, BrandFilter.Lower(brand.value)) else brandsUrls
      ensures fromParseMain == [] && maxPagination == 30
      ensures this.normalRating == normalRating && this.shop == shop && this.connected == connected
    {
      urlList := brandsUrls;
      fromParseMain := [];
      maxPagination := 30;
      this.brand := brand;
      storeBrand := brand;
      this.normalRating := normalRating;
      this.shop := shop;
      this.connected := connected;
      new;
      SetBrandParameter(brand);
    }

    /** Restricts the run to one brand: keeps the catalog URLs one of whose
        segments names it, and forwards the brand to the store. */
    method SetBrandParameter(name: Option<string>)
      modifies this`urlList, this`brand, this`storeBrand
      ensures name.None? ==> urlList == old(urlList) && brand == old(brand) && storeBrand == old(storeBrand)
      ensures name.Some? ==> brand == name && storeBrand == name
      ensures name.Some? ==> urlList == BrandFilter.FilterByBrand(old(urlList), BrandFilter.Lower(name.value))
      ensures IsSubsequence(urlList, old(urlList))
    {
      if name.Some? {
        brand := name;
        storeBrand := name;
        urlList := BrandFilter.FilterByBrand(urlList, BrandFilter.Lower(name.value));
      } else {
        SubsequenceOfItself(urlList);
      }
    }

    /** Reconciles the listed URLs with the 'products' table. */
    method UpdateProductsTable(parseMain: (seq<Url>, int) -> seq<Url>, storedUrls: set<Url>, lowRated: set<Url>,
                               parseDetails: set<Url> -> seq<ProductRecord>)
      returns (ok: Option<bool>, writes: seq<Write>)
      modifies this`fromParseMain
      ensures !connected ==> ok == None && writes == [] && fromParseMain == old(fromParseMain)
      ensures connected ==> ok == Some(true)
      ensures connected ==> fromParseMain == if old(fromParseMain) == [] then parseMain(urlList, maxPagination) else old(fromParseMain)
      ensures connected ==> writes == ProductsSync.ProductWrites(ProductsSync.PlanProducts(fromParseMain, storedUrls, lowRated), parseDetails)
    {
      if !connected {
        return None, [];
      }
      if fromParseMain == [] {
        fromParseMain := parseMain(urlList, maxPagination);
      }
      var plan := ProductsSync.PlanProducts(fromParseMain, storedUrls, lowRated);
      writes := ProductsSync.ProductWrites(plan, parseDetails);
      ok := Some(true);
    }

    /** Reconciles current prices with the last rows of the 'prices' table. */
    method UpdatePricesTable(products: seq<(Code, Url)>, pricesFromDb: seq<PriceRow>,
                             parsePrice: seq<(Code, Url)> -> seq<(Code, int)>, ts: Timestamp)
      returns (ok: Option<bool>, writes: seq<Write>)
      ensures ok.None? <==> !connected
      ensures ok == Some(false) <==> connected && products == []
      ensures ok != Some(true) ==> writes == []
      ensures ok == Some(true) ==> writes == PricesSync.PricesWrites(products, pricesFromDb, parsePrice, ts, normalRating)
    {
      if !connected {
        return None, [];
      }
      if products == [] {
        return Some(false), [];
      }
      writes := [];
      var newCodes := PricesSync.ProductCodes(products) - PricesSync.PricedCodes(pricesFromDb);
      if newCodes != {} {
        var newPairs := PricesSync.PairsWithCodes(products, newCodes);
        var first := PricesSync.FirstPriceRows(parsePrice(newPairs), ts, normalRating);
        if first != [] {
          writes := writes + [InsertPrices(first)];
        }
      }
      ghost var first := PricesSync.NewPriceRows(products, pricesFromDb, parsePrice, ts, normalRating);
      assert writes == if first != [] then [InsertPrices(first)] else [];
      var oldCodes := PricesSync.PricedCodes(pricesFromDb) * PricesSync.ProductCodes(products);
      if oldCodes != {} {
        var oldPairs := PricesSync.PairsWithCodes(products, oldCodes);
        var changes := PricesSync.CollectPriceChanges(parsePrice(oldPairs), pricesFromDb, ts);
        if changes != [] {
          writes := writes + [InsertPrices(changes)];
        }
      }
      ok := Some(true);
    }

    /** Reconciles the stock of the tracked outlet with the last rows of its
        'instock' table. `loaded` is the parser's answer for the products'
        codes; `zeroCodes` the store's codes recorded with a zero count. */
    method UpdateInstockTable(codesUrls: seq<(Code, Url)>, loaded: seq<InstockSync.Fetched>,
                              lastRows: seq<StockRow>, zeroCodes: seq<Code>, ts: Timestamp)
      returns (ok: Option<bool>, writes: seq<Write>)
      ensures ok.None? <==> !connected
      ensures ok == Some(false) <==> connected && codesUrls == []
      ensures ok != Some(true) ==> writes == []
      ensures ok == Some(true) ==>
                writes == InstockSync.InstockWrites(InstockSync.InstockBatches(loaded, lastRows, zeroCodes, shop, ts, normalRating))
    {
      if !connected {
        return None, [];
      }
      if codesUrls == [] {
        return Some(false), [];
      }
      var b := InstockSync.ComputeInstock(loaded, lastRows, zeroCodes, shop, ts, normalRating);
      writes := [];
      if b.newRows != [] {
        writes := writes + [InsertInstock(b.newRows)];
      }
      assert writes == InstockSync.BatchWrite(b.newRows);
      if b.updated != [] {
        writes := writes + [InsertInstock(b.updated)];
      }
      assert writes == InstockSync.BatchWrite(b.newRows) + InstockSync.BatchWrite(b.updated);
      if b.notInstock != [] {
        writes := writes + [InsertInstock(b.notInstock)];
      }
      ok := Some(true);
    }
  }

  lemma {:induction false} SubsequenceOfItself<T>(s: seq<T>)
    ensures IsSubsequence(s, s)
  {
    if s != [] {
      SubsequenceOfItself(s[1..]);
    }
  }
}
