/** The prices synchronizer of `Main.update_prices_table`: first prices for
    codes never priced, and a new row for every code whose price moved. */
module PricesSync {
  import opened Common

  /** The codes of the `(code, url)` pairs read from the 'products' table. */
  function ProductCodes(products: seq<(Code, Url)>): (s: set<Code>)
    ensures forall c :: c in s <==> exists i :: 0 <= i < |products| && products[i].0 == c
  {
    set i | 0 <= i < |products| :: products[i].0
  }

  /** The codes of the last stored price rows. */
  function PricedCodes(rows: seq<PriceRow>): (s: set<Code>)
    ensures forall c :: c in s <==> exists i :: 0 <= i < |rows| && rows[i].code == c
  {
    set i | 0 <= i < |rows| :: rows[i].code
  }

  /** `[(code, url) for (code, url) in products if code in codes]` */
  function PairsWithCodes(products: seq<(Code, Url)>, codes: set<Code>): (r: seq<(Code, Url)>)
    ensures forall p :: p in r <==> p in products && p.0 in codes
    ensures IsSubsequence(r, products)
  {
    if products == [] then []
    else
      var rest := PairsWithCodes(products[1..], codes);
      assert forall p :: p in products <==> p == products[0] || p in products[1..];
      if products[0].0 in codes then
        assert ([products[0]] + rest)[1..] == rest;
        [products[0]] + rest
      else rest
  }

  /** The selection keeps every copy of a pair whose code is selected and no
      copy of any other pair. */
  lemma {:induction false} PairsWithCodesCounts(products: seq<(Code, Url)>, codes: set<Code>, x: (Code, Url))
    ensures multiset(PairsWithCodes(products, codes))[x] == if x.0 in codes then multiset(products)[x] else 0
  {
    if products != [] {
      PairsWithCodesCounts(products[1..], codes, x);
      assert products == [products[0]] + products[1..];
    }
  }

  /** The rating of a first price: the normal rating for a real price, 1 for
      a price of 0 or less. */
  function FirstRating(price: int, normal: int): (r: int)
    ensures price > 0 ==> r == normal
    ensures price <= 0 ==> r == 1
    ensures normal >= 1 ==> r >= 1
  {
    if price > 0 then normal else 1
  }

  /** `solution_new_list`: one row per fetched `(code, price)` of a new code. */
  function FirstPriceRows(fetched: seq<(Code, int)>, ts: Timestamp, normal: int): (rows: seq<PriceRow>)
    ensures |rows| == |fetched|
    // each row keeps the fetched code and price and carries the run's time stamp
    ensures forall i :: 0 <= i < |fetched| ==>
              rows[i].code == fetched[i].0 && rows[i].price == fetched[i].1 && rows[i].timestamp == ts
    // it is rated normally for a positive price and 1 otherwise
    ensures forall i :: 0 <= i < |fetched| ==>
              (fetched[i].1 > 0 ==> rows[i].rating == normal) && (fetched[i].1 <= 0 ==> rows[i].rating == 1)
  {
    seq(|fetched|, i requires 0 <= i < |fetched| =>
      PriceRow(fetched[i].0, fetched[i].1, ts, FirstRating(fetched[i].1, normal)))
  }

  /** The test of the inner loop: a stored row of `code` whose price differs from `price`. */
  function Mismatches(code: Code, price: int): PriceRow -> bool
  {
    (row: PriceRow) => row.code == code && row.price != price
  }

  /** The stored row the inner loop stops at for a fetched `(code, price)`:
      the first one with the same code and a different price. */
  function FirstMismatch(stored: seq<PriceRow>, code: Code, price: int): (r: Option<PriceRow>)
    ensures r.Some? ==> r.value in stored && r.value.code == code && r.value.price != price
    ensures r.None? <==> forall i :: 0 <= i < |stored| && stored[i].code == code ==> stored[i].price == price
  {
    FirstMatch(stored, Mismatches(code, price))
  }

  /** The row the inner loop stops at is the first stored row of the fetched
      code with another price: such a row with none before it is the one found. */
  lemma FirstMismatchIsFirst(stored: seq<PriceRow>, code: Code, price: int, i: int)
    requires 0 <= i < |stored| && stored[i].code == code && stored[i].price != price
    requires forall j :: 0 <= j < i && stored[j].code == code ==> stored[j].price == price
    ensures FirstMismatch(stored, code, price) == Some(stored[i])
  {
    FirstMatchIsFirst(stored, Mismatches(code, price), i);
  }

  /** The rating of a changed price: one more than the stored rating, or 1
      when the new price is 0. */
  function ChangedRating(price: int, stored: int): (r: int)
    ensures price != 0 ==> r == stored + 1
    ensures price == 0 ==> r == 1
    ensures stored >= 0 ==> r >= 1
  {
    if price != 0 then stored + 1 else 1
  }

  /** The row (if any) one fetched `(code, price)` produces. */
  function ChangeFor(pair: (Code, int), stored: seq<PriceRow>, ts: Timestamp): seq<PriceRow>
  {
    match FirstMismatch(stored, pair.0, pair.1)
    case None => []
    case Some(row) => [PriceRow(pair.0, pair.1, ts, ChangedRating(pair.1, row.rating))]
  }

  /** `solution_old_list` after the nested loop has run over `fetched`. */
  function PriceChanges(fetched: seq<(Code, int)>, stored: seq<PriceRow>, ts: Timestamp): (r: seq<PriceRow>)
    // at most one row per fetched pair, because of the `break`
    ensures |r| <= |fetched|
  {
    if fetched == [] then []
    else PriceChanges(fetched[..|fetched| - 1], stored, ts) + ChangeFor(fetched[|fetched| - 1], stored, ts)
  }

  /** One more fetched pair appends its change, if any. */
  lemma PriceChangesStep(fetched: seq<(Code, int)>, stored: seq<PriceRow>, ts: Timestamp, i: int)
    requires 0 <= i < |fetched|
    ensures PriceChanges(fetched[..i + 1], stored, ts) == PriceChanges(fetched[..i], stored, ts) + ChangeFor(fetched[i], stored, ts)
  {
    assert fetched[..i + 1][..i] == fetched[..i] && fetched[..i + 1][i] == fetched[i];
  }

  /** The inner loop's scan: the first mismatch from position `j` on is the
      row at `j` when it mismatches, and the first mismatch after it otherwise. */
  lemma FirstMismatchStep(stored: seq<PriceRow>, code: Code, price: int, j: int)
    requires 0 <= j < |stored|
    ensures FirstMismatch(stored[j..], code, price)
            == if stored[j].code == code && stored[j].price != price then Some(stored[j])
               else FirstMismatch(stored[j + 1..], code, price)
  {
    FirstMatchStep(stored, Mismatches(code, price), j);
  }

  /** The inner loop of the nested loop that builds `solution_old_list`: it
      scans the stored prices for the first row of the fetched code with a
      different price, appends one row for it and stops (`break`). */
  method AppendPriceChange(rows: seq<PriceRow>, updCode: Code, updPrice: int, stored: seq<PriceRow>, ts: Timestamp)
    returns (rows': seq<PriceRow>)
    ensures rows' == rows + ChangeFor((updCode, updPrice), stored, ts)
  {
    rows' := rows;
    var j := 0;
    while j < |stored|
      invariant 0 <= j <= |stored|
      invariant rows' == rows
      invariant FirstMismatch(stored[j..], updCode, updPrice) == FirstMismatch(stored, updCode, updPrice)
    {
      var dbRow := stored[j];
      FirstMismatchStep(stored, updCode, updPrice, j);
      if updCode == dbRow.code && updPrice != dbRow.price {
        assert ChangeFor((updCode, updPrice), stored, ts) == [PriceRow(updCode, updPrice, ts, ChangedRating(updPrice, dbRow.rating))];
        if updPrice != 0 {
          rows' := rows' + [PriceRow(updCode, updPrice, ts, dbRow.rating + 1)];
        } else {
          rows' := rows' + [PriceRow(updCode, updPrice, ts, 1)];
        }
        return;
      }
      j := j + 1;
    }
    assert stored[j..] == [];
  }

  /** The nested loop that builds `solution_old_list`. */
  method CollectPriceChanges(fetched: seq<(Code, int)>, stored: seq<PriceRow>, ts: Timestamp)
    returns (rows: seq<PriceRow>)
    ensures rows == PriceChanges(fetched, stored, ts)
  {
    rows := [];
    var i := 0;
    while i < |fetched|
      invariant 0 <= i <= |fetched|
      invariant rows == PriceChanges(fetched[..i], stored, ts)
    {
      PriceChangesStep(fetched, stored, ts, i);
      rows := AppendPriceChange(rows, fetched[i].0, fetched[i].1, stored, ts);
      i := i + 1;
    }
    assert fetched[..|fetched|] == fetched;
  }

  /** Every row written for an already priced code answers a fetched pair whose
      price differs from a stored price of the same code, and carries the
      stored rating plus one, or 1 for a price of 0. */
  lemma {:induction false} PriceChangeJustified(fetched: seq<(Code, int)>, stored: seq<PriceRow>, ts: Timestamp, row: PriceRow)
    requires row in PriceChanges(fetched, stored, ts)
    ensures (row.code, row.price) in fetched && row.timestamp == ts
    ensures exists s :: s in stored && s.code == row.code && s.price != row.price
                        && row.rating == ChangedRating(row.price, s.rating)
  {
    var init := fetched[..|fetched| - 1];
    var last := fetched[|fetched| - 1];
    if row in PriceChanges(init, stored, ts) {
      PriceChangeJustified(init, stored, ts, row);
      assert forall p :: p in init ==> p in fetched;
    } else {
      assert row in ChangeFor(last, stored, ts);
      var s := FirstMismatch(stored, last.0, last.1).value;
      assert s in stored && s.code == row.code && s.price != row.price;
    }
  }

  /** Every fetched pair whose price differs from some stored price of its
      code produces a row. */
  lemma {:induction false} PriceChangeComplete(fetched: seq<(Code, int)>, stored: seq<PriceRow>, ts: Timestamp, k: int, j: int)
    requires 0 <= k < |fetched| && 0 <= j < |stored|
    requires stored[j].code == fetched[k].0 && stored[j].price != fetched[k].1
    ensures exists row :: row in PriceChanges(fetched, stored, ts) && row.code == fetched[k].0 && row.price == fetched[k].1
  {
    var init := fetched[..|fetched| - 1];
    if k < |fetched| - 1 {
      PriceChangeComplete(init, stored, ts, k, j);
    } else {
      var s := FirstMismatch(stored, fetched[k].0, fetched[k].1).value;
      var row := PriceRow(fetched[k].0, fetched[k].1, ts, ChangedRating(fetched[k].1, s.rating));
      assert row in ChangeFor(fetched[k], stored, ts);
    }
  }

  /** Unchanged prices produce no rows. */
  lemma {:induction false} UnchangedPricesWriteNothing(fetched: seq<(Code, int)>, stored: seq<PriceRow>, ts: Timestamp)
    requires forall k, j :: 0 <= k < |fetched| && 0 <= j < |stored| && stored[j].code == fetched[k].0 ==>
               stored[j].price == fetched[k].1
    ensures PriceChanges(fetched, stored, ts) == []
  {
    if fetched != [] {
      var init := fetched[..|fetched| - 1];
      UnchangedPricesWriteNothing(init, stored, ts);
      var last := fetched[|fetched| - 1];
      assert FirstMismatch(stored, last.0, last.1).None?;
    }
  }

  /** The last row written for `code`, if any. */
  function LastFor(rows: seq<PriceRow>, code: Code): (r: Option<PriceRow>)
    ensures r.Some? ==> r.value in rows && r.value.code == code
    ensures r.None? ==> forall i :: 0 <= i < |rows| ==> rows[i].code != code
  {
    if rows == [] then None
    else if rows[|rows| - 1].code == code then Some(rows[|rows| - 1])
    else LastFor(rows[..|rows| - 1], code)
  }

  /** The most recent row per stored code once `written` has been appended
      with a later time stamp. */
  function LatestAfter(stored: seq<PriceRow>, written: seq<PriceRow>): (r: seq<PriceRow>)
    ensures |r| == |stored|
    ensures forall i :: 0 <= i < |r| ==> r[i].code == stored[i].code
  {
    seq(|stored|, i requires 0 <= i < |stored| =>
      match LastFor(written, stored[i].code)
      case Some(w) => w
      case None => stored[i])
  }

  predicate DistinctCodes(fetched: seq<(Code, int)>)
  {
    forall k, l :: 0 <= k < l < |fetched| ==> fetched[k].0 != fetched[l].0
  }

  /** Re-running the comparison against the store updated with its own
      output writes nothing: unchanged prices are idempotent. */
  lemma RerunWritesNothing(fetched: seq<(Code, int)>, stored: seq<PriceRow>, ts: Timestamp, ts': Timestamp)
    requires DistinctCodes(fetched)
    ensures PriceChanges(fetched, LatestAfter(stored, PriceChanges(fetched, stored, ts)), ts') == []
  {
    var written := PriceChanges(fetched, stored, ts);
    var latest := LatestAfter(stored, written);
    forall k, j | 0 <= k < |fetched| && 0 <= j < |latest| && latest[j].code == fetched[k].0
      ensures latest[j].price == fetched[k].1
    {
      match LastFor(written, stored[j].code)
      case Some(w) =>
        PriceChangeJustified(fetched, stored, ts, w);
        var k' :| 0 <= k' < |fetched| && fetched[k'] == (w.code, w.price);
        assert k' == k;
      case None =>
        if stored[j].price != fetched[k].1 {
          PriceChangeComplete(fetched, stored, ts, k, j);
        }
    }
    UnchangedPricesWriteNothing(fetched, latest, ts');
  }

  /** `solution_new_list`: the first prices of the listed codes never priced. */
  function NewPriceRows(products: seq<(Code, Url)>, stored: seq<PriceRow>,
                        parsePrice: seq<(Code, Url)> -> seq<(Code, int)>, ts: Timestamp, normal: int): (r: seq<PriceRow>)
    // nothing is new when every listed code already has a price row
    ensures ProductCodes(products) <= PricedCodes(stored) ==> r == []
    ensures forall row :: row in r ==> row.timestamp == ts && (row.rating == normal || row.rating == 1)
  {
    var newCodes := ProductCodes(products) - PricedCodes(stored);
    if newCodes != {} then FirstPriceRows(parsePrice(PairsWithCodes(products, newCodes)), ts, normal) else []
  }

  /** `solution_old_list`: the changed prices of the listed codes already priced. */
  function ChangedPriceRows(products: seq<(Code, Url)>, stored: seq<PriceRow>,
                            parsePrice: seq<(Code, Url)> -> seq<(Code, int)>, ts: Timestamp): (r: seq<PriceRow>)
    // nothing changes when no listed code has a price row yet
    ensures PricedCodes(stored) * ProductCodes(products) == {} ==> r == []
    // a changed price only ever concerns a code already priced
    ensures forall row :: row in r ==> row.timestamp == ts && row.code in PricedCodes(stored)
  {
    var oldCodes := PricedCodes(stored) * ProductCodes(products);
    if oldCodes != {} then
      var fetched := parsePrice(PairsWithCodes(products, oldCodes));
      ChangesOfPricedCodes(fetched, stored, ts);
      PriceChanges(fetched, stored, ts)
    else []
  }

  /** Change rows carry the run's time stamp and the code of a stored price row. */
  lemma ChangesOfPricedCodes(fetched: seq<(Code, int)>, stored: seq<PriceRow>, ts: Timestamp)
    ensures forall row :: row in PriceChanges(fetched, stored, ts) ==> row.timestamp == ts && row.code in PricedCodes(stored)
  {
    forall row | row in PriceChanges(fetched, stored, ts)
      ensures row.timestamp == ts && row.code in PricedCodes(stored)
    {
      PriceChangeJustified(fetched, stored, ts, row);
      var r :| r in stored && r.code == row.code && r.price != row.price
               && row.rating == ChangedRating(row.price, r.rating);
      var i :| 0 <= i < |stored| && stored[i] == r;
    }
  }

  /** The price writes of one run over a non-empty products table: first
      prices for the codes never priced, then the changed prices of the others,
      each batch only when it has rows. */
  function PricesWrites(products: seq<(Code, Url)>, stored: seq<PriceRow>,
                        parsePrice: seq<(Code, Url)> -> seq<(Code, int)>, ts: Timestamp, normal: int): (ws: seq<Write>)
    ensures |ws| <= 2
    ensures forall w :: w in ws ==> !w.IsEmpty()
    ensures forall w :: w in ws ==>
              w == InsertPrices(NewPriceRows(products, stored, parsePrice, ts, normal))
              || w == InsertPrices(ChangedPriceRows(products, stored, parsePrice, ts))
    ensures InsertPrices(NewPriceRows(products, stored, parsePrice, ts, normal)) in ws
            <==> NewPriceRows(products, stored, parsePrice, ts, normal) != []
    ensures InsertPrices(ChangedPriceRows(products, stored, parsePrice, ts)) in ws
            <==> ChangedPriceRows(products, stored, parsePrice, ts) != []
    ensures IsSubsequence(ws, [InsertPrices(NewPriceRows(products, stored, parsePrice, ts, normal)),
                               InsertPrices(ChangedPriceRows(products, stored, parsePrice, ts))])
  {
    TwoBatches(NewPriceRows(products, stored, parsePrice, ts, normal),
               ChangedPriceRows(products, stored, parsePrice, ts))
  }

  /** The two `to_prices` calls, each issued only when it has rows. */
  function TwoBatches(first: seq<PriceRow>, changes: seq<PriceRow>): (ws: seq<Write>)
    ensures |ws| <= 2
    ensures forall w :: w in ws ==> !w.IsEmpty()
    ensures forall w :: w in ws ==> w == InsertPrices(first) || w == InsertPrices(changes)
    ensures InsertPrices(first) in ws <==> first != []
    ensures InsertPrices(changes) in ws <==> changes != []
    // at most once each, first prices before changed prices
    ensures IsSubsequence(ws, [InsertPrices(first), InsertPrices(changes)])
  {
    var w1 := if first != [] then [InsertPrices(first)] else [];
    var w2 := if changes != [] then [InsertPrices(changes)] else [];
    OptionalFront(w2, InsertPrices(changes), [], []);
    assert w2 + [] == w2 && [InsertPrices(changes)] + [] == [InsertPrices(changes)];
    OptionalFront(w1, InsertPrices(first), w2, [InsertPrices(changes)]);
    assert [InsertPrices(first)] + [InsertPrices(changes)] == [InsertPrices(first), InsertPrices(changes)];
    w1 + w2
  }

  /** First price rows are rated at least 1 when the normal rating is. */
  lemma FirstRowsRated(fetched: seq<(Code, int)>, ts: Timestamp, normal: int)
    requires normal >= 1
    ensures forall row :: row in FirstPriceRows(fetched, ts, normal) ==> row.rating >= 1
  {
    var first := FirstPriceRows(fetched, ts, normal);
    forall row | row in first ensures row.rating >= 1 {
      var i :| 0 <= i < |first| && first[i] == row;
    }
  }

  /** Changed price rows are rated at least 1 when the stored ratings are not negative. */
  lemma ChangesRated(fetched: seq<(Code, int)>, stored: seq<PriceRow>, ts: Timestamp)
    requires forall i :: 0 <= i < |stored| ==> stored[i].rating >= 0
    ensures forall row :: row in PriceChanges(fetched, stored, ts) ==> row.rating >= 1
  {
    forall row | row in PriceChanges(fetched, stored, ts) ensures row.rating >= 1 {
      PriceChangeJustified(fetched, stored, ts, row);
    }
  }

  /** Every price row written carries a positive rating, given a positive
      normal rating and non-negative stored ratings. */
  lemma PriceRatingsPositive(products: seq<(Code, Url)>, stored: seq<PriceRow>,
                             parsePrice: seq<(Code, Url)> -> seq<(Code, int)>, ts: Timestamp, normal: int)
    requires normal >= 1
    requires forall i :: 0 <= i < |stored| ==> stored[i].rating >= 0
    ensures forall w, row :: w in PricesWrites(products, stored, parsePrice, ts, normal) && row in w.prices ==> row.rating >= 1
  {
    var newCodes := ProductCodes(products) - PricedCodes(stored);
    var oldCodes := PricedCodes(stored) * ProductCodes(products);
    FirstRowsRated(parsePrice(PairsWithCodes(products, newCodes)), ts, normal);
    ChangesRated(parsePrice(PairsWithCodes(products, oldCodes)), stored, ts);
  }

  /** The parser is asked for first prices only for listed codes that have no
      price row, and for current prices only for listed codes that have one. */
  lemma ParserRequests(products: seq<(Code, Url)>, stored: seq<PriceRow>)
    ensures forall p :: p in PairsWithCodes(products, ProductCodes(products) - PricedCodes(stored)) <==>
              p in products && p.0 !in PricedCodes(stored)
    ensures forall p :: p in PairsWithCodes(products, PricedCodes(stored) * ProductCodes(products)) <==>
              p in products && p.0 in PricedCodes(stored)
  {
    forall p | p in products ensures p.0 in ProductCodes(products) {
      var i :| 0 <= i < |products| && products[i] == p;
    }
  }
}
