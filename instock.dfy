/** The instock synchronizer of `Main.update_instock_table`: a diff by code,
    then by size within a code, at one tracked outlet. */
module InstockSync {
  import opened Common

  /** One size line of a code: `(size, count, timestamp, rating)`. */
  datatype Entry = Entry(size: Size, count: int, timestamp: Timestamp, rating: int)

  /** A dictionary from codes to size lines, keys in insertion order (the
      source's `loaded_instock[shop]` and `last_update_instock[shop]`). */
  datatype Table = Table(keys: seq<Code>, lines: map<Code, seq<Entry>>)
  {
    ghost predicate Valid()
    {
      && (forall i, j :: 0 <= i < j < |keys| ==> keys[i] != keys[j])
      && (forall i :: 0 <= i < |keys| ==> keys[i] in lines)
      && (forall k :: k in lines ==> k in keys)
    }
  }

  /** One fetched product: its code and its stock map, outlet to `(size, count)` pairs. */
  type Fetched = (Code, map<Shop, seq<(Size, int)>>)

  /** `d[k] = v` on an insertion-ordered dictionary. */
  function Put(t: Table, k: Code, v: seq<Entry>): (r: Table)
    requires t.Valid()
    ensures r.Valid() && r.lines == t.lines[k := v]
    ensures forall k' :: k' in r.keys <==> k' in t.keys || k' == k
  {
    if k in t.lines then Table(t.keys, t.lines[k := v]) else Table(t.keys + [k], t.lines[k := v])
  }

  /** `d[k] = v` keeps the existing key order as a prefix and adds at most one
      key after it. */
  lemma PutKeepsOrder(t: Table, k: Code, v: seq<Entry>)
    requires t.Valid()
    ensures t.keys <= Put(t, k, v).keys && |Put(t, k, v).keys| <= |t.keys| + 1
  {
  }

  /** The fetched size lines of a code, stamped with the run's time and the normal rating. */
  function FreshLines(sizes: seq<(Size, int)>, ts: Timestamp, normal: int): (r: seq<Entry>)
    ensures |r| == |sizes|
    // the fetched `(size, count)` pairs are kept, in order
    ensures forall i :: 0 <= i < |sizes| ==> (r[i].size, r[i].count) == sizes[i]
    ensures forall e :: e in r ==> e.timestamp == ts && e.rating == normal
  {
    seq(|sizes|, i requires 0 <= i < |sizes| => Entry(sizes[i].0, sizes[i].1, ts, normal))
  }

  /** The outlet's stock in the last fetched answer for `k` that has the
      outlet: later answers overwrite earlier ones, as dictionary stores do. */
  function LastStock(loaded: seq<Fetched>, shop: Shop, k: Code): (r: Option<seq<(Size, int)>>)
    ensures r.None? <==> forall i :: 0 <= i < |loaded| && loaded[i].0 == k ==> shop !in loaded[i].1
  {
    if loaded == [] then None
    else
      var n := |loaded|;
      assert forall i :: 0 <= i < n - 1 ==> loaded[..n - 1][i] == loaded[i];
      if loaded[n - 1].0 == k && shop in loaded[n - 1].1 then Some(loaded[n - 1].1[shop])
      else LastStock(loaded[..n - 1], shop, k)
  }

  /** `LastStock` is the stock of an answer for `k` with the outlet, and no
      later answer for `k` has the outlet. */
  lemma {:induction false} LastStockIsLast(loaded: seq<Fetched>, shop: Shop, k: Code)
    requires LastStock(loaded, shop, k).Some?
    ensures exists i :: && 0 <= i < |loaded| && loaded[i].0 == k && shop in loaded[i].1
                        && LastStock(loaded, shop, k).value == loaded[i].1[shop]
                        && forall j :: i < j < |loaded| && loaded[j].0 == k ==> shop !in loaded[j].1
  {
    var n := |loaded|;
    var init := loaded[..n - 1];
    if !(loaded[n - 1].0 == k && shop in loaded[n - 1].1) {
      LastStockIsLast(init, shop, k);
      var i :| && 0 <= i < |init| && init[i].0 == k && shop in init[i].1
               && LastStock(init, shop, k).value == init[i].1[shop]
               && forall j :: i < j < |init| && init[j].0 == k ==> shop !in init[j].1;
      assert init[i] == loaded[i];
      forall j | i < j < n && loaded[j].0 == k
        ensures shop !in loaded[j].1
      {
        if j < n - 1 {
          assert init[j] == loaded[j];
        }
      }
    }
  }

  /** `loaded_instock[shop]` after the first loop: the fetched codes whose stock
      map has the outlet, each with its last such answer's `(size, count)`
      pairs, stamped with the run's time and the normal rating. */
  function LoadedTable(loaded: seq<Fetched>, shop: Shop, ts: Timestamp, normal: int): (t: Table)
    ensures t.Valid()
    ensures forall k :: k in t.lines <==> LastStock(loaded, shop, k).Some?
    ensures forall k :: k in t.lines ==> t.lines[k] == FreshLines(LastStock(loaded, shop, k).value, ts, normal)
  {
    if loaded == [] then Table([], map[])
    else
      var n := |loaded|;
      var t := LoadedTable(loaded[..n - 1], shop, ts, normal);
      var last := loaded[n - 1];
      if shop in last.1 then Put(t, last.0, FreshLines(last.1[shop], ts, normal)) else t
  }

  /** The first loop, building `loaded_instock[shop]` in place. */
  method BuildLoaded(loaded: seq<Fetched>, shop: Shop, ts: Timestamp, normal: int) returns (t: Table)
    ensures t == LoadedTable(loaded, shop, ts, normal)
  {
    t := Table([], map[]);
    var i := 0;
    while i < |loaded|
      invariant 0 <= i <= |loaded|
      invariant t == LoadedTable(loaded[..i], shop, ts, normal)
    {
      assert loaded[..i + 1][..i] == loaded[..i];
      var (code, instock) := loaded[i];
      if shop in instock {
        var sizes := instock[shop];
        var lines: seq<Entry> := [];
        var j := 0;
        while j < |sizes|
          invariant 0 <= j <= |sizes|
          invariant lines == FreshLines(sizes[..j], ts, normal)
        {
          lines := lines + [Entry(sizes[j].0, sizes[j].1, ts, normal)];
          j := j + 1;
        }
        assert sizes[..|sizes|] == sizes;
        t := Put(t, code, lines);
      }
      i := i + 1;
    }
    assert loaded[..|loaded|] == loaded;
  }

  /** The size line of a stored row. */
  function EntryOf(r: StockRow): Entry
  {
    Entry(r.size, r.count, r.timestamp, r.rating)
  }

  /** The size lines of the stored rows of one code, in the order read. */
  function LinesOf(rows: seq<StockRow>, k: Code): (r: seq<Entry>)
    ensures r == [] <==> forall i :: 0 <= i < |rows| ==> rows[i].code != k
  {
    if rows == [] then []
    else
      var n := |rows|;
      assert forall i :: 0 <= i < n - 1 ==> rows[..n - 1][i] == rows[i];
      LinesOf(rows[..n - 1], k) + (if rows[n - 1].code == k then [EntryOf(rows[n - 1])] else [])
  }

  /** `last_update_instock[shop]`: the stored rows grouped by code; each code
      stored keeps all its rows, in the order read. */
  function LastUpdateTable(rows: seq<StockRow>): (t: Table)
    ensures t.Valid()
    ensures forall k :: k in t.lines <==> LinesOf(rows, k) != []
    ensures forall k :: k in t.lines ==> t.lines[k] == LinesOf(rows, k)
  {
    if rows == [] then Table([], map[])
    else
      var t := LastUpdateTable(rows[..|rows| - 1]);
      var r := rows[|rows| - 1];
      Put(t, r.code, (if r.code in t.lines then t.lines[r.code] else []) + [EntryOf(r)])
  }

  /** The loop over the store's last rows, building `last_update_instock[shop]` in place. */
  method BuildLastUpdate(rows: seq<StockRow>) returns (t: Table)
    ensures t == LastUpdateTable(rows)
  {
    t := Table([], map[]);
    var i := 0;
    while i < |rows|
      invariant 0 <= i <= |rows|
      invariant t == LastUpdateTable(rows[..i])
    {
      assert rows[..i + 1][..i] == rows[..i];
      var r := rows[i];
      assert rows[..i + 1][i] == r;
      var lines: seq<Entry> := [];
      if r.code in t.lines {
        lines := t.lines[r.code];
      }
      t := Put(t, r.code, lines + [EntryOf(r)]);
      i := i + 1;
    }
    assert rows[..|rows|] == rows;
  }

  /** The sizes of some size lines. */
  function Sizes(es: seq<Entry>): (s: set<Size>)
    ensures forall x :: x in s <==> exists i :: 0 <= i < |es| && es[i].size == x
  {
    set i | 0 <= i < |es| :: es[i].size
  }

  /** The test of the inner loop: a fetched line of `size` whose count differs from `count`. */
  function Changes(size: Size, count: int): Entry -> bool
  {
    (f: Entry) => f.size == size && f.count != count
  }

  /** The fetched line the inner loop stops at for a stored line: the first one
      of the same size with a different count. */
  function FirstChanged(fetched: seq<Entry>, size: Size, count: int): (r: Option<Entry>)
    ensures r.Some? ==> r.value in fetched && r.value.size == size && r.value.count != count
    ensures r.None? <==> forall i :: 0 <= i < |fetched| && fetched[i].size == size ==> fetched[i].count == count
  {
    FirstMatch(fetched, Changes(size, count))
  }

  /** The line the inner loop stops at is the first fetched line of the stored
      size with another count: such a line with none before it is the one found. */
  lemma FirstChangedIsFirst(fetched: seq<Entry>, size: Size, count: int, i: int)
    requires 0 <= i < |fetched| && fetched[i].size == size && fetched[i].count != count
    requires forall j :: 0 <= j < i && fetched[j].size == size ==> fetched[j].count == count
    ensures FirstChanged(fetched, size, count) == Some(fetched[i])
  {
    FirstMatchIsFirst(fetched, Changes(size, count), i);
  }

  /** The `updated` row a stored line yields: the first fetched line of its
      size with another count, at the stored rating plus one; none when there
      is no such line. */
  function UpdatedFor(code: Code, e: Entry, fetched: seq<Entry>, ts: Timestamp): seq<StockRow>
  {
    match FirstChanged(fetched, e.size, e.count)
    case None => []
    case Some(f) => [StockRow(code, f.size, f.count, ts, e.rating + 1)]
  }

  /** The `updated` rows of one code present on both sides: for each stored
      line, at most one row, with the fetched count and the stored rating plus one. */
  function UpdatedRows(code: Code, stored: seq<Entry>, fetched: seq<Entry>, ts: Timestamp): (r: seq<StockRow>)
    ensures |r| <= |stored|
    ensures forall row :: row in r ==> row.code == code && row.timestamp == ts
  {
    if stored == [] then []
    else UpdatedRows(code, stored[..|stored| - 1], fetched, ts) + UpdatedFor(code, stored[|stored| - 1], fetched, ts)
  }

  /** Every `updated` row answers a stored line of its size whose count
      changed, carries that line's rating plus one, and takes its count from
      a fetched line of that size. */
  lemma {:induction false} UpdatedJustified(code: Code, stored: seq<Entry>, fetched: seq<Entry>, ts: Timestamp, row: StockRow)
    requires row in UpdatedRows(code, stored, fetched, ts)
    ensures exists e :: e in stored && e.size == row.size && e.count != row.count && row.rating == e.rating + 1
    ensures exists f :: f in fetched && f.size == row.size && f.count == row.count
  {
    var init := stored[..|stored| - 1];
    var e := stored[|stored| - 1];
    if row in UpdatedRows(code, init, fetched, ts) {
      UpdatedJustified(code, init, fetched, ts, row);
      var e' :| e' in init && e'.size == row.size && e'.count != row.count && row.rating == e'.rating + 1;
      assert e' in stored;
    } else {
      var f := FirstChanged(fetched, e.size, e.count).value;
      assert row == StockRow(code, f.size, f.count, ts, e.rating + 1);
    }
  }

  /** A stored line whose size is fetched with another count yields one
      `updated` row, of its size and at its rating plus one. */
  lemma UpdatedForFound(code: Code, e: Entry, fetched: seq<Entry>, ts: Timestamp, j: int)
    requires 0 <= j < |fetched| && fetched[j].size == e.size && fetched[j].count != e.count
    ensures |UpdatedFor(code, e, fetched, ts)| == 1
    ensures UpdatedFor(code, e, fetched, ts)[0].size == e.size
    ensures UpdatedFor(code, e, fetched, ts)[0].rating == e.rating + 1
  {
    var first := FirstChanged(fetched, e.size, e.count);
    assert first.Some?;
  }

  /** A stored line whose size is fetched with another count yields an `updated` row. */
  lemma {:induction false} UpdatedComplete(code: Code, stored: seq<Entry>, fetched: seq<Entry>, ts: Timestamp, i: int, j: int)
    requires 0 <= i < |stored| && 0 <= j < |fetched|
    requires stored[i].size == fetched[j].size && stored[i].count != fetched[j].count
    ensures exists row :: row in UpdatedRows(code, stored, fetched, ts) && row.size == stored[i].size
              && row.rating == stored[i].rating + 1
  {
    var init := stored[..|stored| - 1];
    var rest := UpdatedRows(code, init, fetched, ts);
    var here := UpdatedFor(code, stored[|stored| - 1], fetched, ts);
    assert UpdatedRows(code, stored, fetched, ts) == rest + here;
    if i < |stored| - 1 {
      assert init[i] == stored[i];
      UpdatedComplete(code, init, fetched, ts, i, j);
      var row :| row in rest && row.size == stored[i].size && row.rating == stored[i].rating + 1;
      assert row in rest + here;
    } else {
      var e := stored[|stored| - 1];
      assert e == stored[i];
      UpdatedForFound(code, e, fetched, ts, j);
      assert (rest + here)[|rest|] == here[0];
    }
  }

  /** One more stored line appends its `updated` row, if any. */
  lemma UpdatedRowsStep(code: Code, stored: seq<Entry>, fetched: seq<Entry>, ts: Timestamp, i: int)
    requires 0 <= i < |stored|
    ensures UpdatedRows(code, stored[..i + 1], fetched, ts)
            == UpdatedRows(code, stored[..i], fetched, ts) + UpdatedFor(code, stored[i], fetched, ts)
  {
    assert stored[..i + 1][..i] == stored[..i] && stored[..i + 1][i] == stored[i];
  }

  /** The inner loop's scan: the first changed line from position `j` on is
      the line at `j` when it qualifies, and the first one after it otherwise. */
  lemma FirstChangedStep(fetched: seq<Entry>, size: Size, count: int, j: int)
    requires 0 <= j < |fetched|
    ensures FirstChanged(fetched[j..], size, count)
            == if fetched[j].size == size && fetched[j].count != count then Some(fetched[j])
               else FirstChanged(fetched[j + 1..], size, count)
  {
    FirstMatchStep(fetched, Changes(size, count), j);
  }

  /** The inner loop of the nested loop over one code's lines: it scans the
      fetched lines for the first one of the stored line's size with another
      count, appends one `updated` row for it and stops (`break`). */
  method AppendUpdated(rows: seq<StockRow>, code: Code, e: Entry, fetched: seq<Entry>, ts: Timestamp)
    returns (rows': seq<StockRow>)
    ensures rows' == rows + UpdatedFor(code, e, fetched, ts)
  {
    rows' := rows;
    var j := 0;
    while j < |fetched|
      invariant 0 <= j <= |fetched|
      invariant rows' == rows
      invariant FirstChanged(fetched[j..], e.size, e.count) == FirstChanged(fetched, e.size, e.count)
    {
      var f := fetched[j];
      FirstChangedStep(fetched, e.size, e.count, j);
      if e.size == f.size && e.count != f.count {
        rows' := rows' + [StockRow(code, f.size, f.count, ts, e.rating + 1)];
        return;
      }
      j := j + 1;
    }
    assert fetched[j..] == [];
  }

  /** The nested loop that collects the `updated` rows of one code. */
  method CollectUpdated(code: Code, stored: seq<Entry>, fetched: seq<Entry>, ts: Timestamp)
    returns (rows: seq<StockRow>)
    ensures rows == UpdatedRows(code, stored, fetched, ts)
  {
    rows := [];
    var i := 0;
    while i < |stored|
      invariant 0 <= i <= |stored|
      invariant rows == UpdatedRows(code, stored[..i], fetched, ts)
    {
      UpdatedRowsStep(code, stored, fetched, ts, i);
      rows := AppendUpdated(rows, code, stored[i], fetched, ts);
      i := i + 1;
    }
    assert stored[..|stored|] == stored;
  }

  /** The zero-count row written for a stored line whose size vanished. */
  function Zeroed(code: Code, e: Entry, ts: Timestamp): StockRow
  {
    StockRow(code, e.size, 0, ts, e.rating + 1)
  }

  /** The `not_instock` rows of one code present on both sides: exactly the
      stored lines whose size is no longer fetched, zeroed, with their rating plus one. */
  function MissingRows(code: Code, stored: seq<Entry>, fetched: seq<Entry>, ts: Timestamp): (r: seq<StockRow>)
    ensures forall row :: row in r <==> exists e :: e in stored && e.size !in Sizes(fetched) && row == Zeroed(code, e, ts)
  {
    if stored == [] then []
    else
      var e := stored[|stored| - 1];
      var init := stored[..|stored| - 1];
      var rest := MissingRows(code, init, fetched, ts);
      assert forall x :: x in stored <==> x in init || x == e;
      var here := if e.size !in Sizes(fetched) then [Zeroed(code, e, ts)] else [];
      assert forall row :: row in rest + here <==> row in rest || row in here;
      rest + here
  }

  /** The row written for a fetched line of a size never stored. */
  function NewSize(code: Code, f: Entry, ts: Timestamp, normal: int): StockRow
  {
    StockRow(code, f.size, f.count, ts, normal)
  }

  /** The `new` rows of one code present on both sides: exactly the fetched
      lines whose size was never stored, at the normal rating. */
  function NewSizeRows(code: Code, stored: seq<Entry>, fetched: seq<Entry>, ts: Timestamp, normal: int): (r: seq<StockRow>)
    ensures forall row :: row in r <==> exists f :: f in fetched && f.size !in Sizes(stored) && row == NewSize(code, f, ts, normal)
  {
    if fetched == [] then []
    else
      var f := fetched[|fetched| - 1];
      var init := fetched[..|fetched| - 1];
      var rest := NewSizeRows(code, stored, init, ts, normal);
      assert forall x :: x in fetched <==> x in init || x == f;
      var here := if f.size !in Sizes(stored) then [NewSize(code, f, ts, normal)] else [];
      assert forall row :: row in rest + here <==> row in rest || row in here;
      rest + here
  }

  /** Within one code the three size classes are disjoint: changed sizes are on
      both sides, zeroed sizes only in the store, new sizes only in the fetch. */
  lemma SizeClassesDisjoint(code: Code, stored: seq<Entry>, fetched: seq<Entry>, ts: Timestamp, normal: int)
    ensures forall row :: row in UpdatedRows(code, stored, fetched, ts) ==>
              row.size in Sizes(stored) && row.size in Sizes(fetched)
    ensures forall row :: row in MissingRows(code, stored, fetched, ts) ==>
              row.size in Sizes(stored) && row.size !in Sizes(fetched)
    ensures forall row :: row in NewSizeRows(code, stored, fetched, ts, normal) ==>
              row.size !in Sizes(stored) && row.size in Sizes(fetched)
  {
    forall row | row in UpdatedRows(code, stored, fetched, ts)
      ensures row.size in Sizes(stored) && row.size in Sizes(fetched)
    {
      UpdatedJustified(code, stored, fetched, ts, row);
      var e :| e in stored && e.size == row.size && e.count != row.count && row.rating == e.rating + 1;
      var f :| f in fetched && f.size == row.size && f.count == row.count;
      var i :| 0 <= i < |stored| && stored[i] == e;
      var j :| 0 <= j < |fetched| && fetched[j] == f;
    }
    forall row | row in MissingRows(code, stored, fetched, ts)
      ensures row.size in Sizes(stored) && row.size !in Sizes(fetched)
    {
      var e :| e in stored && e.size !in Sizes(fetched) && row == Zeroed(code, e, ts);
      var i :| 0 <= i < |stored| && stored[i] == e;
    }
    forall row | row in NewSizeRows(code, stored, fetched, ts, normal)
      ensures row.size !in Sizes(stored) && row.size in Sizes(fetched)
    {
      var f :| f in fetched && f.size !in Sizes(stored) && row == NewSize(code, f, ts, normal);
      var j :| 0 <= j < |fetched| && fetched[j] == f;
    }
  }

  /** `(code, *line)` for every line of a code. */
  function EntryRows(code: Code, es: seq<Entry>): (r: seq<StockRow>)
    ensures |r| == |es|
    ensures forall i :: 0 <= i < |es| ==> r[i].code == code && EntryOf(r[i]) == es[i]
  {
    seq(|es|, i requires 0 <= i < |es| => StockRow(code, es[i].size, es[i].count, es[i].timestamp, es[i].rating))
  }

  /** Reading back the rows written for a code's lines gives those lines. */
  lemma {:induction false} LinesOfEntryRows(code: Code, es: seq<Entry>)
    ensures LinesOf(EntryRows(code, es), code) == es
  {
    if es != [] {
      var n := |es|;
      var init := es[..n - 1];
      var rows := EntryRows(code, es);
      var front := EntryRows(code, init);
      assert rows[..n - 1] == front by {
        forall i | 0 <= i < n - 1 ensures rows[..n - 1][i] == front[i] {
          assert init[i] == es[i];
        }
      }
      LinesOfEntryRows(code, init);
      assert LinesOf(rows, code) == LinesOf(front, code) + [EntryOf(rows[n - 1])];
      assert es == init + [es[n - 1]];
    }
  }

  /** The `new` rows of the codes the store has never recorded: every fetched
      line written as it is, without comparison. */
  function NewCodeRows(keys: seq<Code>, loaded: Table, last: Table): (r: seq<StockRow>)
    requires forall i :: 0 <= i < |keys| ==> keys[i] in loaded.lines
    ensures forall row :: row in r ==> row.code in keys && row.code !in last.lines
  {
    if keys == [] then []
    else
      var k := keys[|keys| - 1];
      var init := keys[..|keys| - 1];
      assert forall x :: x in init ==> x in keys;
      NewCodeRows(init, loaded, last) + (if k !in last.lines then EntryRows(k, loaded.lines[k]) else [])
  }

  /** The loop over `loaded_instock[shop]` that collects the rows of new codes. */
  method CollectNewCodes(loaded: Table, last: Table) returns (rows: seq<StockRow>)
    requires loaded.Valid()
    ensures rows == NewCodeRows(loaded.keys, loaded, last)
  {
    rows := [];
    var i := 0;
    while i < |loaded.keys|
      invariant 0 <= i <= |loaded.keys|
      invariant rows == NewCodeRows(loaded.keys[..i], loaded, last)
    {
      var code := loaded.keys[i];
      assert loaded.keys[..i + 1] == loaded.keys[..i] + [code];
      assert loaded.keys[..i + 1][..i] == loaded.keys[..i];
      if code !in last.lines {
        rows := rows + EntryRows(code, loaded.lines[code]);
      }
      assert rows == NewCodeRows(loaded.keys[..i + 1], loaded, last);
      i := i + 1;
    }
    assert loaded.keys[..|loaded.keys|] == loaded.keys;
  }

  /** The three batches: `new`, `updated` and `not_instock`. */
  datatype Batches = Batches(newRows: seq<StockRow>, updated: seq<StockRow>, notInstock: seq<StockRow>)

  /** The batches the loop over the stored codes builds: for each stored code
      also fetched, its changed, new and vanished sizes. */
  function KnownCodesDiff(keys: seq<Code>, loaded: Table, last: Table, ts: Timestamp, normal: int): (b: Batches)
    requires forall i :: 0 <= i < |keys| ==> keys[i] in last.lines
    ensures forall row :: row in b.newRows ==> row.code in keys && row.code in loaded.lines
    ensures forall row :: row in b.updated ==> row.code in keys && row.code in loaded.lines
    ensures forall row :: row in b.notInstock ==> row.code in keys && row.code in loaded.lines
  {
    if keys == [] then Batches([], [], [])
    else
      var k := keys[|keys| - 1];
      var init := keys[..|keys| - 1];
      assert forall x :: x in init ==> x in keys;
      var b := KnownCodesDiff(init, loaded, last, ts, normal);
      if k in loaded.lines then
        var s, f := last.lines[k], loaded.lines[k];
        Batches(b.newRows + NewSizeRows(k, s, f, ts, normal),
                b.updated + UpdatedRows(k, s, f, ts),
                b.notInstock + MissingRows(k, s, f, ts))
      else b
  }

  /** The loop over `last_update_instock[shop]`. */
  method CollectKnownCodes(loaded: Table, last: Table, ts: Timestamp, normal: int) returns (b: Batches)
    requires last.Valid()
    ensures b == KnownCodesDiff(last.keys, loaded, last, ts, normal)
  {
    var newRows, updated, notInstock := [], [], [];
    var i := 0;
    while i < |last.keys|
      invariant 0 <= i <= |last.keys|
      invariant Batches(newRows, updated, notInstock) == KnownCodesDiff(last.keys[..i], loaded, last, ts, normal)
    {
      assert last.keys[..i + 1][..i] == last.keys[..i];
      var code := last.keys[i];
      assert last.keys[..i + 1][i] == code;
      if code in loaded.lines {
        var s, f := last.lines[code], loaded.lines[code];
        var changed := CollectUpdated(code, s, f, ts);
        updated := updated + changed;
        notInstock := notInstock + MissingRows(code, s, f, ts);
        newRows := newRows + NewSizeRows(code, s, f, ts, normal);
      }
      i := i + 1;
    }
    assert last.keys[..|last.keys|] == last.keys;
    b := Batches(newRows, updated, notInstock);
  }

  /** `[item for item in not_instock if item[0] not in not_instock_codes]`:
      the filter is by code, not by code and size. */
  function DropZeroCodes(rows: seq<StockRow>, zeroCodes: seq<Code>): (r: seq<StockRow>)
    ensures forall row :: row in r <==> row in rows && row.code !in zeroCodes
    ensures IsSubsequence(r, rows)
  {
    if rows == [] then []
    else
      var rest := DropZeroCodes(rows[1..], zeroCodes);
      assert forall x :: x in rows <==> x == rows[0] || x in rows[1..];
      if rows[0].code !in zeroCodes then
        assert ([rows[0]] + rest)[1..] == rest;
        [rows[0]] + rest
      else rest
  }

  /** The three batches `update_instock_table` writes, from the parser's answer,
      the store's last rows and its zero-count codes. */
  function InstockBatches(loaded: seq<Fetched>, lastRows: seq<StockRow>, zeroCodes: seq<Code>,
                          shop: Shop, ts: Timestamp, normal: int): (r: Batches)
    // `new` rows only for codes fetched at the outlet
    ensures forall row :: row in r.newRows ==> LastStock(loaded, shop, row.code).Some?
    // `updated` and `not_instock` rows only for codes both fetched and stored
    ensures forall row :: row in r.updated ==> LastStock(loaded, shop, row.code).Some? && LinesOf(lastRows, row.code) != []
    ensures forall row :: row in r.notInstock ==>
              LastStock(loaded, shop, row.code).Some? && LinesOf(lastRows, row.code) != [] && row.code !in zeroCodes
  {
    var l := LoadedTable(loaded, shop, ts, normal);
    var s := LastUpdateTable(lastRows);
    var known := KnownCodesDiff(s.keys, l, s, ts, normal);
    Batches(NewCodeRows(l.keys, l, s) + known.newRows, known.updated, DropZeroCodes(known.notInstock, zeroCodes))
  }

  /** The diff of `update_instock_table`, as the source runs it: its loops, then the filter. */
  method ComputeInstock(loaded: seq<Fetched>, lastRows: seq<StockRow>, zeroCodes: seq<Code>,
                        shop: Shop, ts: Timestamp, normal: int) returns (b: Batches)
    ensures b == InstockBatches(loaded, lastRows, zeroCodes, shop, ts, normal)
  {
    var l := BuildLoaded(loaded, shop, ts, normal);
    var s := BuildLastUpdate(lastRows);
    var firstSeen := CollectNewCodes(l, s);
    var known := CollectKnownCodes(l, s, ts, normal);
    b := Batches(firstSeen + known.newRows, known.updated, DropZeroCodes(known.notInstock, zeroCodes));
  }

  /** Each non-empty batch written once, in the order `new`, `updated`, `not_instock`. */
  function InstockWrites(b: Batches): (ws: seq<Write>)
    ensures forall i :: 0 <= i < |ws| ==> !ws[i].IsEmpty()
    ensures InsertInstock(b.newRows) in ws <==> b.newRows != []
    ensures InsertInstock(b.updated) in ws <==> b.updated != []
    ensures InsertInstock(b.notInstock) in ws <==> b.notInstock != []
    ensures forall w :: w in ws ==> w in [InsertInstock(b.newRows), InsertInstock(b.updated), InsertInstock(b.notInstock)]
  {
    BatchWrite(b.newRows) + BatchWrite(b.updated) + BatchWrite(b.notInstock)
  }

  /** The batches are written at most once each, in the order `new`, `updated`, `not_instock`. */
  lemma InstockWritesInOrder(b: Batches)
    ensures IsSubsequence(InstockWrites(b), [InsertInstock(b.newRows), InsertInstock(b.updated), InsertInstock(b.notInstock)])
  {
    var n, u, z := InsertInstock(b.newRows), InsertInstock(b.updated), InsertInstock(b.notInstock);
    var w1, w2, w3 := BatchWrite(b.newRows), BatchWrite(b.updated), BatchWrite(b.notInstock);
    InOrder3(w1, w2, w3, n, u, z);
  }

  /** `if rows: db.to_instock_nagornaya(rows)` */
  function BatchWrite(rows: seq<StockRow>): seq<Write>
  {
    if rows != [] then [InsertInstock(rows)] else []
  }

  /** The rows of one code, in batch order. */
  function OfCode(rows: seq<StockRow>, k: Code): seq<StockRow>
  {
    if rows == [] then []
    else OfCode(rows[..|rows| - 1], k) + (if rows[|rows| - 1].code == k then [rows[|rows| - 1]] else [])
  }

  lemma {:induction false} OfCodeAppend(a: seq<StockRow>, b: seq<StockRow>, k: Code)
    ensures OfCode(a + b, k) == OfCode(a, k) + OfCode(b, k)
  {
    if b != [] {
      var b' := b[..|b| - 1];
      assert (a + b)[..|a + b| - 1] == a + b';
      OfCodeAppend(a, b', k);
    } else {
      assert a + b == a;
    }
  }

  lemma {:induction false} OfCodeNone(rows: seq<StockRow>, k: Code)
    requires forall row :: row in rows ==> row.code != k
    ensures OfCode(rows, k) == []
  {
    if rows != [] {
      var init := rows[..|rows| - 1];
      assert forall row :: row in init ==> row in rows;
      OfCodeNone(init, k);
    }
  }

  lemma {:induction false} OfCodeAll(rows: seq<StockRow>, k: Code)
    requires forall i :: 0 <= i < |rows| ==> rows[i].code == k
    ensures OfCode(rows, k) == rows
  {
    if rows != [] {
      var init := rows[..|rows| - 1];
      OfCodeAll(init, k);
      assert init + [rows[|rows| - 1]] == rows;
    }
  }

  /** Dropping the last of distinct codes leaves distinct codes without it. */
  lemma DistinctInit(keys: seq<Code>, init: seq<Code>)
    requires |keys| > 0 && init == keys[..|keys| - 1]
    requires forall i, j :: 0 <= i < j < |keys| ==> keys[i] != keys[j]
    ensures forall i, j :: 0 <= i < j < |init| ==> init[i] != init[j]
    ensures keys[|keys| - 1] !in init
  {
    forall i | 0 <= i < |init| ensures init[i] != keys[|keys| - 1] {
      assert init[i] == keys[i];
    }
  }

  lemma {:induction false} NewCodeRowsOfCode(keys: seq<Code>, loaded: Table, last: Table, k: Code)
    requires forall i :: 0 <= i < |keys| ==> keys[i] in loaded.lines
    requires forall i, j :: 0 <= i < j < |keys| ==> keys[i] != keys[j]
    requires k in keys && k !in last.lines
    ensures OfCode(NewCodeRows(keys, loaded, last), k) == EntryRows(k, loaded.lines[k])
  {
    var n := |keys|;
    var x := keys[n - 1];
    var init := keys[..n - 1];
    assert keys == init + [x];
    var here := if x !in last.lines then EntryRows(x, loaded.lines[x]) else [];
    assert NewCodeRows(keys, loaded, last) == NewCodeRows(init, loaded, last) + here;
    OfCodeAppend(NewCodeRows(init, loaded, last), here, k);
    DistinctInit(keys, init);
    if x == k {
      OfCodeNone(NewCodeRows(init, loaded, last), k);
      OfCodeAll(here, k);
    } else {
      assert k in init;
      assert forall i :: 0 <= i < |init| ==> init[i] == keys[i];
      NewCodeRowsOfCode(init, loaded, last, k);
      OfCodeNone(here, k);
    }
  }

  /** Rows that all carry code `k` are exactly their own rows of code `k`. */
  lemma OfCodeOwn(rows: seq<StockRow>, k: Code)
    requires forall row :: row in rows ==> row.code == k
    ensures OfCode(rows, k) == rows
  {
    assert forall i :: 0 <= i < |rows| ==> rows[i] in rows;
    OfCodeAll(rows, k);
  }

  /** The zero-count filter removes all rows of a zero-count code and keeps
      the rows of any other code, in order. */
  lemma {:induction false} OfCodeDropZero(rows: seq<StockRow>, zeroCodes: seq<Code>, k: Code)
    ensures OfCode(DropZeroCodes(rows, zeroCodes), k) == if k in zeroCodes then [] else OfCode(rows, k)
  {
    if k in zeroCodes {
      OfCodeNone(DropZeroCodes(rows, zeroCodes), k);
    } else if rows != [] {
      var x := rows[0];
      var rest := DropZeroCodes(rows[1..], zeroCodes);
      OfCodeDropZero(rows[1..], zeroCodes, k);
      assert rows == [x] + rows[1..];
      OfCodeAppend([x], rows[1..], k);
      if x.code !in zeroCodes {
        OfCodeAppend([x], rest, k);
      } else {
        OfCodeNone([x], k);
      }
    }
  }

  /** The per-code rows of a code carry that code. */
  lemma PerCodeRows(code: Code, stored: seq<Entry>, fetched: seq<Entry>, ts: Timestamp, normal: int)
    ensures forall row :: row in UpdatedRows(code, stored, fetched, ts) ==> row.code == code
    ensures forall row :: row in MissingRows(code, stored, fetched, ts) ==> row.code == code
    ensures forall row :: row in NewSizeRows(code, stored, fetched, ts, normal) ==> row.code == code
  {
    forall row | row in MissingRows(code, stored, fetched, ts) ensures row.code == code {
      var e :| e in stored && e.size !in Sizes(fetched) && row == Zeroed(code, e, ts);
    }
    forall row | row in NewSizeRows(code, stored, fetched, ts, normal) ensures row.code == code {
      var f :| f in fetched && f.size !in Sizes(stored) && row == NewSize(code, f, ts, normal);
    }
  }

  /** Appending the per-code rows of `x` adds them to the rows of code `k`
      when `k` is `x`, and nothing otherwise. */
  lemma AppendCodeOfCode(r: Batches, x: Code, st: seq<Entry>, f: seq<Entry>, ts: Timestamp, normal: int, k: Code)
    ensures OfCode(r.updated + UpdatedRows(x, st, f, ts), k)
            == OfCode(r.updated, k) + if x == k then UpdatedRows(x, st, f, ts) else []
    ensures OfCode(r.notInstock + MissingRows(x, st, f, ts), k)
            == OfCode(r.notInstock, k) + if x == k then MissingRows(x, st, f, ts) else []
    ensures OfCode(r.newRows + NewSizeRows(x, st, f, ts, normal), k)
            == OfCode(r.newRows, k) + if x == k then NewSizeRows(x, st, f, ts, normal) else []
  {
    var u, m, nw := UpdatedRows(x, st, f, ts), MissingRows(x, st, f, ts), NewSizeRows(x, st, f, ts, normal);
    OfCodeAppend(r.updated, u, k);
    OfCodeAppend(r.notInstock, m, k);
    OfCodeAppend(r.newRows, nw, k);
    PerCodeRows(x, st, f, ts, normal);
    if x == k {
      OfCodeOwn(u, k);
      OfCodeOwn(m, k);
      OfCodeOwn(nw, k);
    } else {
      OfCodeNone(u, k);
      OfCodeNone(m, k);
      OfCodeNone(nw, k);
    }
  }

  /** The loop over the stored codes gives a code that is not both stored and
      fetched no rows. */
  lemma {:induction false} KnownCodesOther(keys: seq<Code>, loaded: Table, last: Table, ts: Timestamp, normal: int, k: Code)
    requires forall i :: 0 <= i < |keys| ==> keys[i] in last.lines
    requires k !in keys || k !in loaded.lines
    ensures var b := KnownCodesDiff(keys, loaded, last, ts, normal);
            OfCode(b.updated, k) == [] && OfCode(b.notInstock, k) == [] && OfCode(b.newRows, k) == []
  {
    if keys != [] {
      var n := |keys|;
      var x := keys[n - 1];
      var init := keys[..n - 1];
      assert keys == init + [x];
      assert forall i :: 0 <= i < |init| ==> init[i] == keys[i];
      KnownCodesOther(init, loaded, last, ts, normal, k);
      var b := KnownCodesDiff(keys, loaded, last, ts, normal);
      var r := KnownCodesDiff(init, loaded, last, ts, normal);
      if x in loaded.lines {
        var st, f := last.lines[x], loaded.lines[x];
        assert b == Batches(r.newRows + NewSizeRows(x, st, f, ts, normal), r.updated + UpdatedRows(x, st, f, ts),
                            r.notInstock + MissingRows(x, st, f, ts));
        assert x != k;
        AppendCodeOfCode(r, x, st, f, ts, normal, k);
      } else {
        assert b == r;
      }
    }
  }

  /** The loop over distinct stored codes gives a code both stored and fetched
      exactly its `updated`, `not_instock` and `new` rows. */
  lemma {:induction false} KnownCodesOwn(keys: seq<Code>, loaded: Table, last: Table, ts: Timestamp, normal: int, k: Code)
    requires forall i :: 0 <= i < |keys| ==> keys[i] in last.lines
    requires forall i, j :: 0 <= i < j < |keys| ==> keys[i] != keys[j]
    requires k in keys && k in loaded.lines
    ensures k in last.lines
    ensures var b := KnownCodesDiff(keys, loaded, last, ts, normal);
            && OfCode(b.updated, k) == UpdatedRows(k, last.lines[k], loaded.lines[k], ts)
            && OfCode(b.notInstock, k) == MissingRows(k, last.lines[k], loaded.lines[k], ts)
            && OfCode(b.newRows, k) == NewSizeRows(k, last.lines[k], loaded.lines[k], ts, normal)
  {
    var n := |keys|;
    var x := keys[n - 1];
    var init := keys[..n - 1];
    DistinctInit(keys, init);
    assert keys == init + [x];
    assert forall i :: 0 <= i < |init| ==> init[i] == keys[i];
    var b := KnownCodesDiff(keys, loaded, last, ts, normal);
    var r := KnownCodesDiff(init, loaded, last, ts, normal);
    if x == k {
      // the earlier keys hold no row of `k`
      KnownCodesOther(init, loaded, last, ts, normal, k);
      var st, f := last.lines[x], loaded.lines[x];
      var u, m, nw := UpdatedRows(x, st, f, ts), MissingRows(x, st, f, ts), NewSizeRows(x, st, f, ts, normal);
      assert b == Batches(r.newRows + nw, r.updated + u, r.notInstock + m);
      AppendCodeOfCode(r, x, st, f, ts, normal, k);
      assert [] + u == u && [] + m == m && [] + nw == nw;
    } else {
      // the last key adds nothing for `k`
      assert k in init;
      KnownCodesOwn(init, loaded, last, ts, normal, k);
      if x in loaded.lines {
        var st, f := last.lines[x], loaded.lines[x];
        assert b == Batches(r.newRows + NewSizeRows(x, st, f, ts, normal), r.updated + UpdatedRows(x, st, f, ts),
                            r.notInstock + MissingRows(x, st, f, ts));
        AppendCodeOfCode(r, x, st, f, ts, normal, k);
        assert OfCode(r.updated, k) + [] == OfCode(r.updated, k);
        assert OfCode(r.notInstock, k) + [] == OfCode(r.notInstock, k);
        assert OfCode(r.newRows, k) + [] == OfCode(r.newRows, k);
      } else {
        assert b == r;
      }
    }
  }

  /** The loop over the stored codes gives a code both stored and fetched
      exactly its `updated`, `not_instock` and `new` rows, and any other code
      nothing. */
  lemma KnownCodesOfCode(keys: seq<Code>, loaded: Table, last: Table, ts: Timestamp, normal: int, k: Code)
    requires forall i :: 0 <= i < |keys| ==> keys[i] in last.lines
    requires forall i, j :: 0 <= i < j < |keys| ==> keys[i] != keys[j]
    ensures var b := KnownCodesDiff(keys, loaded, last, ts, normal);
            if k in keys && k in loaded.lines && k in last.lines then
              && OfCode(b.updated, k) == UpdatedRows(k, last.lines[k], loaded.lines[k], ts)
              && OfCode(b.notInstock, k) == MissingRows(k, last.lines[k], loaded.lines[k], ts)
              && OfCode(b.newRows, k) == NewSizeRows(k, last.lines[k], loaded.lines[k], ts, normal)
            else OfCode(b.updated, k) == [] && OfCode(b.notInstock, k) == [] && OfCode(b.newRows, k) == []
  {
    if k in keys && k in loaded.lines {
      KnownCodesOwn(keys, loaded, last, ts, normal, k);
    } else {
      KnownCodesOther(keys, loaded, last, ts, normal, k);
    }
  }

  /** A code both fetched at the outlet and stored gets exactly its per-code
      diff: its changed sizes are `updated`, its never-stored sizes `new`, and
      its vanished sizes `not_instock` unless it is a zero-count code. */
  lemma KnownCodeBatches(loaded: seq<Fetched>, lastRows: seq<StockRow>, zeroCodes: seq<Code>,
                         shop: Shop, ts: Timestamp, normal: int, k: Code)
    requires LastStock(loaded, shop, k).Some? && LinesOf(lastRows, k) != []
    ensures OfCode(InstockBatches(loaded, lastRows, zeroCodes, shop, ts, normal).updated, k)
            == UpdatedRows(k, LinesOf(lastRows, k), FreshLines(LastStock(loaded, shop, k).value, ts, normal), ts)
    ensures OfCode(InstockBatches(loaded, lastRows, zeroCodes, shop, ts, normal).newRows, k)
            == NewSizeRows(k, LinesOf(lastRows, k), FreshLines(LastStock(loaded, shop, k).value, ts, normal), ts, normal)
    ensures OfCode(InstockBatches(loaded, lastRows, zeroCodes, shop, ts, normal).notInstock, k)
            == if k in zeroCodes then []
               else MissingRows(k, LinesOf(lastRows, k), FreshLines(LastStock(loaded, shop, k).value, ts, normal), ts)
  {
    var l := LoadedTable(loaded, shop, ts, normal);
    var s := LastUpdateTable(lastRows);
    var known := KnownCodesDiff(s.keys, l, s, ts, normal);
    assert k in l.lines && k in s.lines;
    assert k in s.keys;
    KnownCodesOfCode(s.keys, l, s, ts, normal, k);
    OfCodeNone(NewCodeRows(l.keys, l, s), k);
    OfCodeAppend(NewCodeRows(l.keys, l, s), known.newRows, k);
    OfCodeDropZero(known.notInstock, zeroCodes, k);
    var b := InstockBatches(loaded, lastRows, zeroCodes, shop, ts, normal);
    assert b == Batches(NewCodeRows(l.keys, l, s) + known.newRows, known.updated, DropZeroCodes(known.notInstock, zeroCodes));
  }

  /** A fetched code the store has never recorded is written as it was fetched,
      at the normal rating, with no comparison: none of its rows is `updated`
      or `not_instock`. */
  lemma NewCodeBypass(loaded: seq<Fetched>, lastRows: seq<StockRow>, zeroCodes: seq<Code>,
                      shop: Shop, ts: Timestamp, normal: int, k: Code)
    requires k in LoadedTable(loaded, shop, ts, normal).lines
    requires forall i :: 0 <= i < |lastRows| ==> lastRows[i].code != k
    ensures OfCode(InstockBatches(loaded, lastRows, zeroCodes, shop, ts, normal).newRows, k)
            == EntryRows(k, LoadedTable(loaded, shop, ts, normal).lines[k])
    ensures forall row :: row in OfCode(InstockBatches(loaded, lastRows, zeroCodes, shop, ts, normal).newRows, k) ==>
              row.timestamp == ts && row.rating == normal
    ensures OfCode(InstockBatches(loaded, lastRows, zeroCodes, shop, ts, normal).updated, k) == []
    ensures OfCode(InstockBatches(loaded, lastRows, zeroCodes, shop, ts, normal).notInstock, k) == []
  {
    var l := LoadedTable(loaded, shop, ts, normal);
    var s := LastUpdateTable(lastRows);
    var known := KnownCodesDiff(s.keys, l, s, ts, normal);
    assert k !in s.lines;
    assert k !in s.keys by {
      forall i | 0 <= i < |s.keys| ensures s.keys[i] != k {
        assert s.keys[i] in s.lines;
      }
    }
    NewCodeRowsOfCode(l.keys, l, s, k);
    OfCodeNone(known.newRows, k);
    OfCodeAppend(NewCodeRows(l.keys, l, s), known.newRows, k);
    OfCodeNone(known.updated, k);
    OfCodeNone(DropZeroCodes(known.notInstock, zeroCodes), k);
    var b := InstockBatches(loaded, lastRows, zeroCodes, shop, ts, normal);
    assert b == Batches(NewCodeRows(l.keys, l, s) + known.newRows, known.updated, DropZeroCodes(known.notInstock, zeroCodes));
    assert OfCode(b.newRows, k) == EntryRows(k, l.lines[k]) + [];
    var sizes := LastStock(loaded, shop, k).value;
    assert l.lines[k] == FreshLines(sizes, ts, normal);
    assert OfCode(b.newRows, k) == EntryRows(k, FreshLines(sizes, ts, normal));
    FreshRows(k, sizes, ts, normal);
    assert forall row :: row in OfCode(b.newRows, k) ==> row.timestamp == ts && row.rating == normal;
    assert OfCode(b.updated, k) == [] && OfCode(b.notInstock, k) == [];
  }

  /** The rows of freshly fetched lines carry the run's time and the normal rating. */
  lemma FreshRows(k: Code, sizes: seq<(Size, int)>, ts: Timestamp, normal: int)
    ensures forall row :: row in EntryRows(k, FreshLines(sizes, ts, normal)) ==> row.timestamp == ts && row.rating == normal
  {
    var lines := FreshLines(sizes, ts, normal);
    var rows := EntryRows(k, lines);
    forall row | row in rows ensures row.timestamp == ts && row.rating == normal {
      var i :| 0 <= i < |rows| && rows[i] == row;
      assert EntryOf(row) == lines[i] && lines[i] in lines;
    }
  }

  lemma ScenarioLoaded(code: Code, shop: Shop, ts: Timestamp, normal: int)
    ensures LoadedTable([(code, map[shop := [(90, 2)]])], shop, ts, normal)
            == Table([code], map[code := [Entry(90, 2, ts, normal)]])
  {
    var loaded: seq<Fetched> := [(code, map[shop := [(90, 2)]])];
    assert loaded[..0] == [];
    assert loaded[0].1[shop] == [(90, 2)];
    assert FreshLines([(90, 2)], ts, normal) == [Entry(90, 2, ts, normal)];
    assert [] + [code] == [code];
  }

  lemma ScenarioStoredFirst(code: Code, t0: Timestamp, rate: int)
    ensures LastUpdateTable([StockRow(code, 90, 3, t0, rate)]) == Table([code], map[code := [Entry(90, 3, t0, rate)]])
  {
    var rows := [StockRow(code, 90, 3, t0, rate)];
    assert rows[..0] == [];
    assert [] + [Entry(90, 3, t0, rate)] == [Entry(90, 3, t0, rate)];
    assert [] + [code] == [code];
  }

  lemma ScenarioStored(code: Code, t0: Timestamp, rate: int)
    ensures LastUpdateTable([StockRow(code, 90, 3, t0, rate), StockRow(code, 100, 0, t0, rate)])
            == Table([code], map[code := [Entry(90, 3, t0, rate), Entry(100, 0, t0, rate)]])
  {
    var rows := [StockRow(code, 90, 3, t0, rate), StockRow(code, 100, 0, t0, rate)];
    assert rows[..1] == [StockRow(code, 90, 3, t0, rate)];
    ScenarioStoredFirst(code, t0, rate);
    assert [Entry(90, 3, t0, rate)] + [Entry(100, 0, t0, rate)] == [Entry(90, 3, t0, rate), Entry(100, 0, t0, rate)];
  }

  lemma ScenarioSizes(code: Code, t0: Timestamp, ts: Timestamp, rate: int, normal: int)
    ensures var stored := [Entry(90, 3, t0, rate), Entry(100, 0, t0, rate)];
            var fetched := [Entry(90, 2, ts, normal)];
            && UpdatedRows(code, stored, fetched, ts) == [StockRow(code, 90, 2, ts, rate + 1)]
            && MissingRows(code, stored, fetched, ts) == [StockRow(code, 100, 0, ts, rate + 1)]
            && NewSizeRows(code, stored, fetched, ts, normal) == []
  {
    var stored := [Entry(90, 3, t0, rate), Entry(100, 0, t0, rate)];
    var fetched := [Entry(90, 2, ts, normal)];
    assert fetched[0].size == 90;
    assert 90 in Sizes(fetched) && 100 !in Sizes(fetched);
    assert stored[0] == stored[..2][0];
    assert 90 in Sizes(stored);
    assert stored[..1] == [stored[0]] && stored[..1][..0] == [];
    assert MissingRows(code, stored[..1], fetched, ts) == [];
    assert FirstChanged(fetched, 100, 0).None?;
    assert FirstChanged(fetched, 90, 3) == Some(fetched[0]);
    assert fetched[..0] == [];
  }

  lemma ScenarioDiff(code: Code, t0: Timestamp, ts: Timestamp, rate: int, normal: int)
    ensures var l := Table([code], map[code := [Entry(90, 2, ts, normal)]]);
            var s := Table([code], map[code := [Entry(90, 3, t0, rate), Entry(100, 0, t0, rate)]]);
            && NewCodeRows(l.keys, l, s) == []
            && KnownCodesDiff(s.keys, l, s, ts, normal)
               == Batches([], [StockRow(code, 90, 2, ts, rate + 1)], [StockRow(code, 100, 0, ts, rate + 1)])
  {
    ScenarioSizes(code, t0, ts, rate, normal);
    assert [code][..0] == [];
  }

  /** The batches of the scenario below, for any zero-count codes. */
  lemma ScenarioBatches(code: Code, shop: Shop, t0: Timestamp, ts: Timestamp, rate: int, normal: int, zeroCodes: seq<Code>)
    ensures InstockBatches([(code, map[shop := [(90, 2)]])],
                           [StockRow(code, 90, 3, t0, rate), StockRow(code, 100, 0, t0, rate)], zeroCodes, shop, ts, normal)
            == Batches([], [StockRow(code, 90, 2, ts, rate + 1)], DropZeroCodes([StockRow(code, 100, 0, ts, rate + 1)], zeroCodes))
  {
    ScenarioLoaded(code, shop, ts, normal);
    ScenarioStored(code, t0, rate);
    ScenarioDiff(code, t0, ts, rate, normal);
  }

  /** Stored sizes 90 (count 3) and 100 (count 0), fetched size 90 with count 2:
      size 90 is updated to 2 and size 100 is zeroed, both at the stored rating
      plus one; once the code is among the zero-count codes, the zeroing row
      is dropped. */
  lemma {:induction false} ZeroOutScenario(code: Code, shop: Shop, t0: Timestamp, ts: Timestamp, rate: int, normal: int)
    ensures var loaded := [(code, map[shop := [(90, 2)]])];
            var lastRows := [StockRow(code, 90, 3, t0, rate), StockRow(code, 100, 0, t0, rate)];
            && InstockBatches(loaded, lastRows, [], shop, ts, normal)
               == Batches([], [StockRow(code, 90, 2, ts, rate + 1)], [StockRow(code, 100, 0, ts, rate + 1)])
            && InstockBatches(loaded, lastRows, [code], shop, ts, normal)
               == Batches([], [StockRow(code, 90, 2, ts, rate + 1)], [])
  {
    var zeroed := [StockRow(code, 100, 0, ts, rate + 1)];
    ScenarioBatches(code, shop, t0, ts, rate, normal, []);
    ScenarioBatches(code, shop, t0, ts, rate, normal, [code]);
    assert DropZeroCodes(zeroed, []) == zeroed;
    assert DropZeroCodes(zeroed, [code]) == [];
  }

  /** The zero-count codes only filter the `not_instock` batch: `new` and
      `updated` are the same whatever the store reports. */
  lemma ZeroFilterOnlyNotInstock(loaded: seq<Fetched>, lastRows: seq<StockRow>, zeroCodes: seq<Code>,
                                 shop: Shop, ts: Timestamp, normal: int)
    ensures var b := InstockBatches(loaded, lastRows, zeroCodes, shop, ts, normal);
            var unfiltered := InstockBatches(loaded, lastRows, [], shop, ts, normal);
            && b.newRows == unfiltered.newRows && b.updated == unfiltered.updated
            && (forall row :: row in b.notInstock <==> row in unfiltered.notInstock && row.code !in zeroCodes)
  {
  }

  /** Every line of a table has at least rating `m`. */
  ghost predicate RatedAtLeast(t: Table, m: int)
  {
    forall k, e :: k in t.lines && e in t.lines[k] ==> e.rating >= m
  }

  lemma {:induction false} LastUpdateRated(rows: seq<StockRow>)
    requires forall i :: 0 <= i < |rows| ==> rows[i].rating >= 0
    ensures RatedAtLeast(LastUpdateTable(rows), 0)
  {
    if rows != [] {
      var init := rows[..|rows| - 1];
      LastUpdateRated(init);
    }
  }

  lemma LoadedRated(loaded: seq<Fetched>, shop: Shop, ts: Timestamp, normal: int)
    ensures RatedAtLeast(LoadedTable(loaded, shop, ts, normal), normal)
  {
    var t := LoadedTable(loaded, shop, ts, normal);
    forall k, e | k in t.lines && e in t.lines[k] ensures e.rating >= normal {
    }
  }

  lemma {:induction false} NewCodeRowsRated(keys: seq<Code>, loaded: Table, last: Table, m: int)
    requires forall i :: 0 <= i < |keys| ==> keys[i] in loaded.lines
    requires RatedAtLeast(loaded, m)
    ensures forall row :: row in NewCodeRows(keys, loaded, last) ==> row.rating >= m
  {
    if keys != [] {
      var init := keys[..|keys| - 1];
      var k := keys[|keys| - 1];
      assert forall x :: x in init ==> x in keys;
      NewCodeRowsRated(init, loaded, last, m);
      var here := if k !in last.lines then EntryRows(k, loaded.lines[k]) else [];
      forall row | row in here ensures row.rating >= m {
        var i :| 0 <= i < |here| && here[i] == row;
        assert loaded.lines[k][i] in loaded.lines[k];
      }
    }
  }

  lemma {:induction false} KnownCodesRated(keys: seq<Code>, loaded: Table, last: Table, ts: Timestamp, normal: int)
    requires forall i :: 0 <= i < |keys| ==> keys[i] in last.lines
    requires normal >= 1 && RatedAtLeast(last, 0)
    ensures var b := KnownCodesDiff(keys, loaded, last, ts, normal);
            forall row :: row in b.newRows || row in b.updated || row in b.notInstock ==> row.rating >= 1
  {
    if keys != [] {
      var init := keys[..|keys| - 1];
      var k := keys[|keys| - 1];
      assert forall x :: x in init ==> x in keys;
      KnownCodesRated(init, loaded, last, ts, normal);
      if k in loaded.lines {
        var st, f := last.lines[k], loaded.lines[k];
        forall row | row in UpdatedRows(k, st, f, ts) ensures row.rating >= 1 {
          UpdatedJustified(k, st, f, ts, row);
          var e :| e in st && e.size == row.size && e.count != row.count && row.rating == e.rating + 1;
        }
        forall row | row in MissingRows(k, st, f, ts) ensures row.rating >= 1 {
          var e :| e in st && e.size !in Sizes(f) && row == Zeroed(k, e, ts);
        }
        forall row | row in NewSizeRows(k, st, f, ts, normal) ensures row.rating >= 1 {
          var e :| e in f && e.size !in Sizes(st) && row == NewSize(k, e, ts, normal);
        }
      }
    }
  }

  /** Every stock row written carries a positive rating, given a positive
      normal rating and non-negative stored ratings. */
  lemma InstockRatingsPositive(loaded: seq<Fetched>, lastRows: seq<StockRow>, zeroCodes: seq<Code>,
                               shop: Shop, ts: Timestamp, normal: int)
    requires normal >= 1
    requires forall i :: 0 <= i < |lastRows| ==> lastRows[i].rating >= 0
    ensures var b := InstockBatches(loaded, lastRows, zeroCodes, shop, ts, normal);
            forall row :: row in b.newRows || row in b.updated || row in b.notInstock ==> row.rating >= 1
  {
    var l := LoadedTable(loaded, shop, ts, normal);
    var s := LastUpdateTable(lastRows);
    LoadedRated(loaded, shop, ts, normal);
    LastUpdateRated(lastRows);
    NewCodeRowsRated(l.keys, l, s, normal);
    KnownCodesRated(s.keys, l, s, ts, normal);
  }
}
