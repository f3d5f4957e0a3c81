/** The products synchronizer of `Main.update_products_table`: set algebra
    over listing URLs. */
module ProductsSync {
  import opened Common

  /** The three URL sets the source computes before writing. */
  datatype Plan = Plan(notInstock: set<Url>, toNormalRate: set<Url>, newUrls: set<Url>)

  /** `set(from_parse_main)`: the listed URLs without repetitions. */
  function Listed(fromParse: seq<Url>): (s: set<Url>)
    ensures forall u :: u in s <==> u in fromParse
  {
    set u | u in fromParse
  }

  /** The diff of the listed URLs against the store's URLs (`stored`) and its
      low-rated URLs (`lowRated`). */
  function PlanProducts(fromParse: seq<Url>, stored: set<Url>, lowRated: set<Url>): (p: Plan)
    // the three write sets are pairwise disjoint
    ensures p.notInstock !! p.toNormalRate && p.notInstock !! p.newUrls && p.toNormalRate !! p.newUrls
    // restored and new URLs together are exactly the listed URLs the store lacks
    ensures p.toNormalRate + p.newUrls == Listed(fromParse) - stored
    // only stored URLs that are no longer listed are rated down
    ensures forall u :: u in p.notInstock <==> u in stored && u !in fromParse
    // restoring needs a previous low rating; new URLs never had one
    ensures p.toNormalRate <= lowRated && p.newUrls !! lowRated
  {
    var unic := Listed(fromParse);
    var check := unic - stored;
    Plan(stored - unic, lowRated * check, check - lowRated)
  }

  /** The writes the source issues for a plan, in its order: rating 1 for the
      URLs no longer listed, the normal rating for returning URLs, and the
      parsed details of the new URLs when the parse returns any. */
  function ProductWrites(p: Plan, parseDetails: set<Url> -> seq<ProductRecord>): (ws: seq<Write>)
    ensures forall i :: 0 <= i < |ws| ==> !ws[i].IsEmpty()
    ensures RateProductsTo1(p.notInstock) in ws <==> p.notInstock != {}
    ensures RateProductsToNormal(p.toNormalRate) in ws <==> p.toNormalRate != {}
    ensures forall w :: w in ws ==>
              || w == RateProductsTo1(p.notInstock)
              || w == RateProductsToNormal(p.toNormalRate)
              || (p.newUrls != {} && w == InsertProducts(parseDetails(p.newUrls)))
    ensures InsertProducts(parseDetails(p.newUrls)) in ws <==> p.newUrls != {} && parseDetails(p.newUrls) != []
    ensures |ws| <= 3
  {
    var w1 := if p.notInstock != {} then [RateProductsTo1(p.notInstock)] else [];
    var w2 := if p.toNormalRate != {} then [RateProductsToNormal(p.toNormalRate)] else [];
    var details := if p.newUrls != {} then parseDetails(p.newUrls) else [];
    var w3 := if details != [] then [InsertProducts(details)] else [];
    w1 + w2 + w3
  }

  /** The writes are issued at most once each, in the source's order: rate to 1,
      rate to normal, insert details. */
  lemma ProductWritesInOrder(p: Plan, parseDetails: set<Url> -> seq<ProductRecord>)
    ensures IsSubsequence(ProductWrites(p, parseDetails),
                          [RateProductsTo1(p.notInstock), RateProductsToNormal(p.toNormalRate),
                           InsertProducts(parseDetails(p.newUrls))])
  {
    var n, u, z := RateProductsTo1(p.notInstock), RateProductsToNormal(p.toNormalRate), InsertProducts(parseDetails(p.newUrls));
    var w1 := if p.notInstock != {} then [n] else [];
    var w2 := if p.toNormalRate != {} then [u] else [];
    var details := if p.newUrls != {} then parseDetails(p.newUrls) else [];
    var w3 := if details != [] then [InsertProducts(details)] else [];
    assert ProductWrites(p, parseDetails) == w1 + w2 + w3;
    InOrder3(w1, w2, w3, n, u, z);
  }

  /** When every low-rated URL is also among the store's URLs, nothing is ever
      restored to the normal rating: the restore batch needs the store to
      report low-rated URLs outside its URL list. */
  lemma RestoreNeedsSeparateReads(fromParse: seq<Url>, stored: set<Url>, lowRated: set<Url>)
    requires lowRated <= stored
    ensures PlanProducts(fromParse, stored, lowRated).toNormalRate == {}
  {
  }

  /** A URL that is listed again after being rated down is restored exactly
      when the store reports it as low-rated and not among its URLs. */
  lemma ReturningUrl(fromParse: seq<Url>, stored: set<Url>, lowRated: set<Url>, u: Url)
    requires u in fromParse && u in lowRated && u !in stored
    ensures u in PlanProducts(fromParse, stored, lowRated).toNormalRate
    ensures u !in PlanProducts(fromParse, stored, lowRated).newUrls
  {
  }

  /** Listing, storing A and B with B low-rated and listing B and C: A is rated
      down and C is new; B is not restored because it is among the store's URLs. */
  lemma {:induction false} ScenarioStoredLowRated()
    ensures PlanProducts(["B", "C"], {"A", "B"}, {"B"}) == Plan({"A"}, {}, {"C"})
  {
    var listed := Listed(["B", "C"]);
    assert "B" in ["B", "C"] && "C" in ["B", "C"];
    assert listed == {"B", "C"};
  }

  /** The same listing with only A among the store's URLs and B low-rated:
      B is restored to the normal rating. */
  lemma {:induction false} ScenarioReturning()
    ensures PlanProducts(["B", "C"], {"A"}, {"B"}) == Plan({"A"}, {"B"}, {"C"})
  {
    var listed := Listed(["B", "C"]);
    assert "B" in ["B", "C"] && "C" in ["B", "C"];
    assert listed == {"B", "C"};
  }
}
