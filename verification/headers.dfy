/** The header adjustment at the end of `get_countriesdata`: the column list
    read from the download gains `iso3` at position 30, then `end_year` and
    `start_year` at position 3 (ucdp.py lines 47-49). */
module Headers {

  /** The list `s` without its element at index `k`. */
  function RemoveAt(s: seq<string>, k: nat): (r: seq<string>)
    requires k < |s|
    ensures |r| == |s| - 1
  {
    s[..k] + s[k + 1..]
  }

  /** The index at which Python's `list.insert(i, x)` places `x` for a
      non-negative `i`: `i` itself, or the end of the list when `i` is past it. */
  function InsertIndex(s: seq<string>, i: nat): (k: nat)
    ensures k <= |s|
  {
    if i < |s| then i else |s|
  }

  /** Python's `s.insert(i, x)`. */
  function Insert(s: seq<string>, i: nat, x: string): (r: seq<string>)
    ensures |r| == |s| + 1
    ensures r[InsertIndex(s, i)] == x
    ensures RemoveAt(r, InsertIndex(s, i)) == s
  {
    var k := InsertIndex(s, i);
    var r := s[..k] + [x] + s[k..];
    assert r[..k] == s[..k] && r[k + 1..] == s[k..];
    r
  }

  /** Inserting adds `x` and keeps every element already there. */
  lemma InsertMultiset(s: seq<string>, i: nat, x: string)
    ensures multiset(Insert(s, i, x)) == multiset(s) + multiset{x}
  {
    var k := InsertIndex(s, i);
    assert s == s[..k] + s[k..];
  }

  /** The three columns `get_countriesdata` adds to the downloaded header. */
  const InsertedColumns: seq<string> := ["start_year", "end_year", "iso3"]

  /** The header list `get_countriesdata` returns: the download's header
      with the three derived columns inserted, nothing dropped. */
  function AdjustHeaders(h: seq<string>): (r: seq<string>)
    ensures |r| == |h| + 3
    ensures multiset(r) == multiset(h) + multiset(InsertedColumns)
  {
    var a := Insert(h, 30, "iso3");
    var b := Insert(a, 3, "end_year");
    InsertMultiset(h, 30, "iso3");
    InsertMultiset(a, 3, "end_year");
    InsertMultiset(b, 3, "start_year");
    Insert(b, 3, "start_year")
  }

  /** For a header of at least three columns, the year columns sit at
      positions 3 and 4 and `iso3` follows the original column 29 (or ends the
      list when there are fewer than 30); the original columns keep their order. */
  lemma AdjustHeadersLayout(h: seq<string>)
    requires |h| >= 3
    ensures var m := if |h| < 30 then |h| else 30;
            AdjustHeaders(h) == h[..3] + ["start_year", "end_year"] + h[3..m] + ["iso3"] + h[m..]
  {
    var m := if |h| < 30 then |h| else 30;
    var tail := h[3..m] + ["iso3"] + h[m..];
    var a := Insert(h, 30, "iso3");
    assert a == h[..m] + ["iso3"] + h[m..];
    SplitAtThree(h, m, a);
    var b := Insert(a, 3, "end_year");
    InsertAtThree(h, tail, a, "end_year");
    assert b[..3] == h[..3] && b[3..] == ["end_year"] + tail;
    InsertAtThree(h, ["end_year"] + tail, b, "start_year");
  }

  lemma SplitAtThree(h: seq<string>, m: nat, a: seq<string>)
    requires 3 <= m <= |h|
    requires a == h[..m] + ["iso3"] + h[m..]
    ensures a[..3] == h[..3]
    ensures a[3..] == h[3..m] + ["iso3"] + h[m..]
  {
  }

  lemma InsertAtThree(h: seq<string>, tail: seq<string>, a: seq<string>, x: string)
    requires |h| >= 3 && |a| >= 3
    requires a[..3] == h[..3] && a[3..] == tail
    ensures Insert(a, 3, x) == h[..3] + [x] + tail
  {
  }

  /** The published UCDP header has more than 30 columns: there `start_year`
      is column 3, `end_year` column 4 and `iso3` column 32, its insertion
      index 30 shifted by the two later inserts. */
  lemma AdjustHeadersPositions(h: seq<string>)
    requires |h| >= 30
    ensures |AdjustHeaders(h)| == |h| + 3
    ensures AdjustHeaders(h)[3] == "start_year"
    ensures AdjustHeaders(h)[4] == "end_year"
    ensures AdjustHeaders(h)[32] == "iso3"
    ensures AdjustHeaders(h)[..3] == h[..3]
    ensures AdjustHeaders(h)[5..32] == h[3..30]
    ensures AdjustHeaders(h)[33..] == h[30..]
  {
    AdjustHeadersLayout(h);
    var r := AdjustHeaders(h);
    assert r == h[..3] + ["start_year", "end_year"] + h[3..30] + ["iso3"] + h[30..];
  }

  /** With the original columns at the three inserted positions removed again,
      the long header is exactly the downloaded one. */
  lemma AdjustHeadersRemoves(h: seq<string>)
    requires |h| >= 30
    ensures RemoveAt(RemoveAt(RemoveAt(AdjustHeaders(h), 32), 4), 3) == h
  {
    AdjustHeadersPositions(h);
    var r := AdjustHeaders(h);
    assert r == h[..3] + ["start_year", "end_year"] + h[3..30] + ["iso3"] + h[30..];
    var r1 := RemoveAt(r, 32);
    assert r1 == h[..3] + ["start_year", "end_year"] + h[3..];
    var r2 := RemoveAt(r1, 4);
    assert r2 == h[..3] + ["start_year"] + h[3..];
    assert RemoveAt(r2, 3) == h;
  }
}
