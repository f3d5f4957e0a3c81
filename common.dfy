/** Values shared by the three synchronizers: identifiers, the rows of the
    three tables and the write batches handed to the store. */
module Common {

  datatype Option<+T> = None | Some(value: T)

  /** A product listing URL: the identifier whose presence in the catalog is tracked. */
  type Url = string
  /** The numeric product code, stable across outlets. */
  type Code = int
  /** An opaque time stamp; the engine only copies it into the rows it writes. */
  type Timestamp = string
  /** The name of an outlet in the per-outlet stock map. */
  type Shop = string
  /** A shoe size in one canonical numeric form (for instance tenths of a size),
      so that two equal sizes are equal values. */
  type Size = int

  /** A row of the 'products' table, as the detail parser produces it. */
  datatype ProductRecord = ProductRecord(
    code: Code, brand: string, model: string, url: Url, img: string,
    age: string, gender: string, year: int, use: string, pronation: string,
    article: string, season: string, timestamp: Timestamp, rating: int)

  /** A row of the 'prices' table. */
  datatype PriceRow = PriceRow(code: Code, price: int, timestamp: Timestamp, rating: int)

  /** A row of the 'instock' table of the tracked outlet. */
  datatype StockRow = StockRow(code: Code, size: Size, count: int, timestamp: Timestamp, rating: int)

  /** One write operation on the store. */
  datatype Write =
    | RateProductsTo1(urls: set<Url>)
    | RateProductsToNormal(urls: set<Url>)
    | InsertProducts(items: seq<ProductRecord>)
    | InsertPrices(prices: seq<PriceRow>)
    | InsertInstock(stock: seq<StockRow>)
  {
    /** True when the write carries no rows; the engine never issues such a write. */
    predicate IsEmpty() {
      match this
      case RateProductsTo1(urls) => urls == {}
      case RateProductsToNormal(urls) => urls == {}
      case InsertProducts(items) => items == []
      case InsertPrices(prices) => prices == []
      case InsertInstock(stock) => stock == []
    }
  }

  /** The first element of `s` that passes `p`: where a `for x in s: if p(x): … break`
      scan stops. */
  function FirstMatch<T>(s: seq<T>, p: T -> bool): (r: Option<T>)
    ensures r.Some? ==> r.value in s && p(r.value)
    ensures r.None? <==> forall i :: 0 <= i < |s| ==> !p(s[i])
  {
    if s == [] then None
    else if p(s[0]) then Some(s[0])
    else
      var r := FirstMatch(s[1..], p);
      assert forall i :: 1 <= i < |s| ==> s[1..][i - 1] == s[i];
      r
  }

  /** The element found is the first one that passes: an element that passes
      with no passing element before it is the one found. */
  lemma {:induction false} FirstMatchIsFirst<T>(s: seq<T>, p: T -> bool, i: int)
    requires 0 <= i < |s| && p(s[i])
    requires forall j :: 0 <= j < i ==> !p(s[j])
    ensures FirstMatch(s, p) == Some(s[i])
  {
    if i > 0 {
      assert !p(s[0]);
      assert forall j :: 0 <= j < i - 1 ==> s[1..][j] == s[j + 1];
      FirstMatchIsFirst(s[1..], p, i - 1);
    }
  }

  /** One step of the scan: from position `j` on, the element at `j` when it
      passes, and the first passing one after it otherwise. */
  lemma FirstMatchStep<T>(s: seq<T>, p: T -> bool, j: int)
    requires 0 <= j < |s|
    ensures FirstMatch(s[j..], p) == if p(s[j]) then Some(s[j]) else FirstMatch(s[j + 1..], p)
  {
    assert s[j..][0] == s[j] && s[j..][1..] == s[j + 1..];
  }

  /** `a` is `b` with some elements left out, the rest in the same order. */
  predicate IsSubsequence<T(==)>(a: seq<T>, b: seq<T>)
    decreases |b|
  {
    || a == []
    || (b != [] && ((a[0] == b[0] && IsSubsequence(a[1..], b[1..])) || IsSubsequence(a, b[1..])))
  }

  /** A batch that is issued at most once, in front of batches issued in order,
      keeps the order: `a` is either nothing or the single element `x`. */
  lemma OptionalFront<T>(a: seq<T>, x: T, rest: seq<T>, b: seq<T>)
    requires a == [] || a == [x]
    requires IsSubsequence(rest, b)
    ensures IsSubsequence(a + rest, [x] + b)
  {
    if a == [] {
      assert a + rest == rest && ([x] + b)[1..] == b;
      if rest != [] {
        assert ([x] + b) != [];
      }
    } else {
      assert (a + rest)[0] == x && (a + rest)[1..] == rest;
      assert ([x] + b)[1..] == b;
    }
  }

  /** Three batches, each issued at most once, in their order. */
  lemma InOrder3<T>(w1: seq<T>, w2: seq<T>, w3: seq<T>, x: T, y: T, z: T)
    requires w1 == [] || w1 == [x]
    requires w2 == [] || w2 == [y]
    requires w3 == [] || w3 == [z]
    ensures IsSubsequence(w1 + w2 + w3, [x, y, z])
  {
    OptionalFront(w3, z, [], []);
    assert w3 + [] == w3 && [z] + [] == [z];
    OptionalFront(w2, y, w3, [z]);
    OptionalFront(w1, x, w2 + w3, [y] + [z]);
    assert [x] + ([y] + [z]) == [x, y, z];
    assert w1 + (w2 + w3) == w1 + w2 + w3;
  }
}
