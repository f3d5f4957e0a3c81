/** The brand filter of `Main.set_brand_parameter`: a catalog URL is kept when
    one of its '/'-separated segments names the brand, either as a whole
    segment without '-' or as the text after the first '-' of a segment. */
module BrandFilter {
  import opened Common

  /** Python's `s.split(d)`: the pieces between occurrences of `d`, empty
      pieces included, so that there is always at least one piece. */
  function Split(s: string, d: char): (parts: seq<string>)
    ensures |parts| >= 1
    ensures forall i :: 0 <= i < |parts| ==> d !in parts[i]
  {
    if s == [] then [""]
    else
      var rest := Split(s[1..], d);
      if s[0] == d then [""] + rest
      else
        assert forall i :: 1 <= i < |rest| ==> rest[1..][i - 1] == rest[i];
        [[s[0]] + rest[0]] + rest[1..]
  }

  /** Python's `d.join(parts)`. */
  function Join(parts: seq<string>, d: char): string
    requires |parts| >= 1
  {
    if |parts| == 1 then parts[0] else parts[0] + [d] + Join(parts[1..], d)
  }

  /** Joining the pieces of a split gives the string back. */
  lemma {:induction false} JoinSplit(s: string, d: char)
    ensures Join(Split(s, d), d) == s
  {
    if s != [] {
      var rest := Split(s[1..], d);
      JoinSplit(s[1..], d);
      if s[0] == d {
        assert Split(s, d) == [""] + rest;
        assert s == [d] + s[1..];
      } else {
        var parts := Split(s, d);
        assert parts[1..] == rest[1..];
        if |rest| > 1 {
          assert Join(rest, d) == rest[0] + [d] + Join(rest[1..], d);
        }
      }
    }
  }

  lemma {:induction false} SplitAround(a: string, d: char, b: string)
    requires d !in a
    ensures Split(a + [d] + b, d) == [a] + Split(b, d)
  {
    if a == [] {
      assert a + [d] + b == [d] + b;
    } else {
      SplitAround(a[1..], d, b);
      assert (a + [d] + b)[1..] == a[1..] + [d] + b;
      assert [a[0]] + a[1..] == a;
    }
  }

  lemma {:induction false} SplitPlain(a: string, d: char)
    requires d !in a
    ensures Split(a, d) == [a]
  {
    if a != [] {
      SplitPlain(a[1..], d);
      assert [a[0]] + a[1..] == a;
    }
  }

  /** Splitting a join of pieces that do not contain the separator gives the pieces back. */
  lemma {:induction false} SplitJoin(parts: seq<string>, d: char)
    requires |parts| >= 1
    requires forall i :: 0 <= i < |parts| ==> d !in parts[i]
    ensures Split(Join(parts, d), d) == parts
  {
    if |parts| == 1 {
      SplitPlain(parts[0], d);
    } else {
      SplitJoin(parts[1..], d);
      SplitAround(parts[0], d, Join(parts[1..], d));
      assert [parts[0]] + parts[1..] == parts;
    }
  }

  /** Python's `s.partition(c)`: the text before the first `c`, the separator
      itself and the text after it; `(s, "", "")` when `c` does not occur. */
  function Partition(s: string, c: char): (r: (string, string, string))
    ensures r.0 + r.1 + r.2 == s
    ensures c !in r.0
    ensures c in s ==> r.1 == [c]
    ensures c !in s ==> r.1 == "" && r.2 == ""
  {
    if s == [] then (s, "", "")
    else if s[0] == c then ("", [c], s[1..])
    else
      var r' := Partition(s[1..], c);
      assert s == [s[0]] + s[1..];
      ([s[0]] + r'.0, r'.1, r'.2)
  }

  /** ASCII lower-casing of one character. */
  function LowerChar(ch: char): char
  {
    if 'A' <= ch <= 'Z' then (ch as int + 32) as char else ch
  }

  /** `s.lower()` on ASCII letters. */
  function Lower(s: string): (r: string)
    ensures |r| == |s|
    ensures forall i :: 0 <= i < |s| ==> !('A' <= r[i] <= 'Z')
    // every character other than an upper-case letter is kept
    ensures forall i :: 0 <= i < |s| && !('A' <= s[i] <= 'Z') ==> r[i] == s[i]
    // an upper-case letter becomes the lower-case letter at the same place in the alphabet
    ensures forall i :: 0 <= i < |s| && 'A' <= s[i] <= 'Z' ==> 'a' <= r[i] <= 'z' && r[i] as int - 'a' as int == s[i] as int - 'A' as int
  {
    seq(|s|, i requires 0 <= i < |s| => LowerChar(s[i]))
  }

  /** A segment names the brand `name`. */
  predicate SegmentNames(seg: string, name: string)
  {
    if '-' in seg then Partition(seg, '-').2 == name else seg == name
  }

  /** `[i for i in segs if '-' not in i]` */
  function Unhyphenated(segs: seq<string>): (r: seq<string>)
    ensures forall x :: x in r <==> x in segs && '-' !in x
  {
    if segs == [] then []
    else if '-' !in segs[0] then [segs[0]] + Unhyphenated(segs[1..])
    else Unhyphenated(segs[1..])
  }

  /** `[i.partition('-')[2] for i in segs if '-' in i]` */
  function HyphenTails(segs: seq<string>): (r: seq<string>)
    ensures forall x :: x in r <==> exists seg :: seg in segs && '-' in seg && Partition(seg, '-').2 == x
  {
    if segs == [] then []
    else
      var rest := HyphenTails(segs[1..]);
      assert forall seg :: seg in segs <==> seg == segs[0] || seg in segs[1..];
      if '-' in segs[0] then [Partition(segs[0], '-').2] + rest else rest
  }

  /** The list the source's `filter(lambda x: x == name, …)` runs over. */
  function Candidates(url: Url): seq<string>
  {
    var segs := Split(url, '/');
    Unhyphenated(segs) + HyphenTails(segs)
  }

  /** The comprehension keeps `url` when the filtered list is non-empty. */
  predicate NamesBrand(url: Url, name: string)
  {
    name in Candidates(url)
  }

  /** A URL is kept exactly when one of its segments names the brand. */
  lemma NamesBrandIff(url: Url, name: string)
    ensures NamesBrand(url, name) <==> exists seg :: seg in Split(url, '/') && SegmentNames(seg, name)
  {
    var segs := Split(url, '/');
    if NamesBrand(url, name) {
      if name in Unhyphenated(segs) {
        assert SegmentNames(name, name);
      } else {
        var seg :| seg in segs && '-' in seg && Partition(seg, '-').2 == name;
        assert SegmentNames(seg, name);
      }
    }
    if exists seg :: seg in segs && SegmentNames(seg, name) {
      var seg :| seg in segs && SegmentNames(seg, name);
      if '-' in seg {
        assert name in HyphenTails(segs);
      } else {
        assert name in Unhyphenated(segs);
      }
    }
  }

  /** `[url for url in urls if <url names the brand>]`: the kept URLs, in their order. */
  function FilterByBrand(urls: seq<Url>, name: string): (r: seq<Url>)
    ensures forall u :: u in r <==> u in urls && NamesBrand(u, name)
    ensures IsSubsequence(r, urls)
  {
    if urls == [] then []
    else
      var rest := FilterByBrand(urls[1..], name);
      assert forall u :: u in urls <==> u == urls[0] || u in urls[1..];
      if NamesBrand(urls[0], name) then
        assert ([urls[0]] + rest)[1..] == rest;
        [urls[0]] + rest
      else rest
  }

  /** The filter keeps every copy of a URL that names the brand and no copy
      of one that does not. */
  lemma {:induction false} FilterByBrandCounts(urls: seq<Url>, name: string, x: Url)
    ensures multiset(FilterByBrand(urls, name))[x] == if NamesBrand(x, name) then multiset(urls)[x] else 0
  {
    if urls != [] {
      FilterByBrandCounts(urls[1..], name, x);
      assert urls == [urls[0]] + urls[1..];
    }
  }

  /** Filtering again by the same brand changes nothing. */
  lemma {:induction false} FilterByBrandIdempotent(urls: seq<Url>, name: string)
    ensures FilterByBrand(FilterByBrand(urls, name), name) == FilterByBrand(urls, name)
  {
    if urls != [] {
      FilterByBrandIdempotent(urls[1..], name);
      var rest := FilterByBrand(urls[1..], name);
      if NamesBrand(urls[0], name) {
        assert ([urls[0]] + rest)[1..] == rest;
      }
    }
  }
}
