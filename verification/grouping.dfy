/** `get_countriesdata` (ucdp.py lines 33-50): one pass over the downloaded
    rows that resolves each distinct country name to an ISO3 code once,
    tags every row with its code, appends it to the bucket of that code, and
    lists the countries in the order they first appear. */
module Grouping {
  import opened Wrappers
  import opened Seqs
  import opened Rows
  import opened Headers

  /** `Country.get_iso3_country_code_fuzzy`: a free-text country name to its
      ISO3 code; `None` is the `ValueError` it raises when nothing matches. */
  type CodeLookup = string -> Option<string>

  /** `Country.get_country_name_from_iso3`: the canonical name of a code,
      `None` when the catalog has none. */
  type NameLookup = string -> Option<string>

  /** One entry of the `countries` list. */
  datatype Country = Country(iso3: string, countryname: Option<string>, origname: string)

  /** A Python dict of lists (`countriesdata`): the keys in insertion order,
      and the list held under each key. */
  datatype Buckets = Buckets(keys: seq<string>, lists: map<string, seq<Row>>)

  /** The loop's state: the name-to-code memo, the countries found so far,
      the buckets, and the names handed to the fuzzy lookup, in call order. */
  datatype State = State(
    memo: map<string, string>,
    countries: seq<Country>,
    data: Buckets,
    lookups: seq<string>)

  /** The exceptions that end the pass: a row without a `country` column (a
      `KeyError`), or a name the fuzzy lookup cannot match (a `ValueError`).
      The exception carries no payload in the source; the index and the name
      recorded here only identify, within the model, the row that raised. */
  datatype GroupError = MissingCountry(index: nat) | Unresolved(name: string)

  /** What `get_countriesdata` returns. */
  datatype CountriesData = CountriesData(countries: seq<Country>, headers: seq<string>, data: Buckets)

  const Start := State(map[], [], Buckets([], map[]), [])

  /** `row['iso3'] = countryiso`: the row gains (or replaces) its `iso3`
      column and keeps every other column. */
  function Tag(row: Row, code: string): (r: Row)
    ensures r.Keys == row.Keys + {"iso3"}
    ensures r["iso3"] == Str(code)
    ensures forall k :: k in row && k != "iso3" ==> r[k] == row[k]
  {
    row["iso3" := Str(code)]
  }

  /** `dict_of_lists_add(d, key, row)`: append `row` to the list under `key`,
      creating the list (and a new last key) when `key` is new. */
  function Add(b: Buckets, key: string, row: Row): (r: Buckets)
    ensures r.lists.Keys == b.lists.Keys + {key}
    ensures r.lists[key] == (if key in b.lists then b.lists[key] else []) + [row]
    ensures forall k :: k in b.lists && k != key ==> r.lists[k] == b.lists[k]
    ensures r.keys == if key in b.lists then b.keys else b.keys + [key]
  {
    if key in b.lists then Buckets(b.keys, b.lists[key := b.lists[key] + [row]])
    else Buckets(b.keys + [key], b.lists[key := [row]])
  }

  /** The `country` text of a row. */
  function CountryName(row: Row): Option<string> {
    TextField(row, "country")
  }

  /** One iteration of the loop over rows, for the row at `index`. */
  function Step(lookup: CodeLookup, nameOf: NameLookup, s: State, row: Row, index: nat): Result<State, GroupError> {
    match CountryName(row)
    case None => Failure(MissingCountry(index))
    case Some(name) =>
      if name in s.memo then
        var code := s.memo[name];
        Success(s.(data := Add(s.data, code, Tag(row, code))))
      else
        match lookup(name)
        case None => Failure(Unresolved(name))
        case Some(code) =>
          Success(State(
            s.memo[name := code],
            s.countries + [Country(code, nameOf(code), name)],
            Add(s.data, code, Tag(row, code)),
            s.lookups + [name]))
  }

  /** The loop run over all of `rows`, in order. */
  function Group(lookup: CodeLookup, nameOf: NameLookup, rows: seq<Row>): Result<State, GroupError>
    decreases |rows|
  {
    if |rows| == 0 then Success(Start)
    else
      var s :- Group(lookup, nameOf, rows[..|rows| - 1]);
      Step(lookup, nameOf, s, rows[|rows| - 1], |rows| - 1)
  }

  // -----------------------------------------------------------------------
  // Reference definitions, stated row by row without the memo

  /** The row has a country name and the fuzzy lookup matches it. */
  predicate Resolves(lookup: CodeLookup, row: Row) {
    CountryName(row).Some? && lookup(CountryName(row).value).Some?
  }

  predicate AllResolve(lookup: CodeLookup, rows: seq<Row>) {
    forall i :: 0 <= i < |rows| ==> Resolves(lookup, rows[i])
  }

  /** The exception the row at `index` raises when it does not resolve. */
  function ErrorAt(row: Row, index: nat): GroupError {
    match CountryName(row)
    case None => MissingCountry(index)
    case Some(name) => Unresolved(name)
  }

  /** The country name of every row, in row order. */
  function Names(lookup: CodeLookup, rows: seq<Row>): (r: seq<string>)
    requires AllResolve(lookup, rows)
    ensures |r| == |rows|
    ensures forall i :: 0 <= i < |rows| ==> CountryName(rows[i]) == Some(r[i])
  {
    if |rows| == 0 then []
    else Names(lookup, rows[..|rows| - 1]) + [CountryName(rows[|rows| - 1]).value]
  }

  /** The code the lookup gives the country of every row, in row order. */
  function Codes(lookup: CodeLookup, rows: seq<Row>): (r: seq<string>)
    requires AllResolve(lookup, rows)
    ensures |r| == |rows|
    ensures forall i :: 0 <= i < |rows| ==> lookup(CountryName(rows[i]).value) == Some(r[i])
  {
    if |rows| == 0 then []
    else Codes(lookup, rows[..|rows| - 1]) + [lookup(CountryName(rows[|rows| - 1]).value).value]
  }

  /** The rows whose country resolves to `code`, in row order, each tagged
      with that code. */
  function Bucket(lookup: CodeLookup, rows: seq<Row>, code: string): (r: seq<Row>)
    requires AllResolve(lookup, rows)
    ensures forall j :: 0 <= j < |r| ==> "iso3" in r[j] && r[j]["iso3"] == Str(code)
  {
    if |rows| == 0 then []
    else
      var p := Bucket(lookup, rows[..|rows| - 1], code);
      var last := rows[|rows| - 1];
      if lookup(CountryName(last).value).value == code then p + [Tag(last, code)] else p
  }

  /** The number of rows held in all buckets together. */
  function TotalSize(b: Buckets): nat {
    SizeOver(b.keys, b.lists)
  }

  function SizeOver(keys: seq<string>, lists: map<string, seq<Row>>): nat {
    if |keys| == 0 then 0
    else SizeOver(keys[..|keys| - 1], lists) + (if keys[|keys| - 1] in lists then |lists[keys[|keys| - 1]]| else 0)
  }

  /** The memo holds exactly the names seen so far, each mapped to the code
      the lookup gives it. */
  ghost predicate MemoFaithful(lookup: CodeLookup, rows: seq<Row>, memo: map<string, string>)
    requires AllResolve(lookup, rows)
  {
    && (forall n :: n in memo <==> n in Names(lookup, rows))
    && (forall n :: n in memo ==> lookup(n) == Some(memo[n]))
  }

  // -----------------------------------------------------------------------
  // Properties of the pass

  lemma PrefixResolves(lookup: CodeLookup, rows: seq<Row>)
    requires |rows| > 0 && AllResolve(lookup, rows)
    ensures AllResolve(lookup, rows[..|rows| - 1])
    ensures Names(lookup, rows) == Names(lookup, rows[..|rows| - 1]) + [CountryName(rows[|rows| - 1]).value]
    ensures Codes(lookup, rows) == Codes(lookup, rows[..|rows| - 1]) + [lookup(CountryName(rows[|rows| - 1]).value).value]
  {
  }

  /** A pass that finishes has resolved every row, and its memo maps each
      name seen to the code the lookup returned for it. */
  lemma {:induction false} GroupMemo(lookup: CodeLookup, nameOf: NameLookup, rows: seq<Row>)
    ensures Group(lookup, nameOf, rows).Success? ==>
              AllResolve(lookup, rows) && MemoFaithful(lookup, rows, Group(lookup, nameOf, rows).value.memo)
    decreases |rows|
  {
    if |rows| > 0 && Group(lookup, nameOf, rows).Success? {
      var p := rows[..|rows| - 1];
      var row := rows[|rows| - 1];
      GroupMemo(lookup, nameOf, p);
      var s := Group(lookup, nameOf, p).value;
      var name := CountryName(row).value;
      assert Resolves(lookup, row);
      assert AllResolve(lookup, rows) by {
        forall i | 0 <= i < |rows|
          ensures Resolves(lookup, rows[i])
        {
          if i < |rows| - 1 {
            assert rows[i] == p[i];
          }
        }
      }
      PrefixResolves(lookup, rows);
    }
  }

  /** The pass succeeds exactly when every row has a country name the fuzzy
      lookup matches: there is no fallback code. */
  lemma {:induction false} GroupSucceedsIff(lookup: CodeLookup, nameOf: NameLookup, rows: seq<Row>)
    ensures Group(lookup, nameOf, rows).Success? <==> AllResolve(lookup, rows)
    decreases |rows|
  {
    GroupMemo(lookup, nameOf, rows);
    if |rows| > 0 && AllResolve(lookup, rows) {
      var p := rows[..|rows| - 1];
      PrefixResolves(lookup, rows);
      GroupSucceedsIff(lookup, nameOf, p);
    }
  }

  /** When some row does not resolve, the pass raises for the first such row
      and returns nothing else. */
  lemma {:induction false} GroupFailsAtFirst(lookup: CodeLookup, nameOf: NameLookup, rows: seq<Row>, i: nat)
    requires i < |rows| && !Resolves(lookup, rows[i])
    requires AllResolve(lookup, rows[..i])
    ensures Group(lookup, nameOf, rows) == Failure(ErrorAt(rows[i], i))
    decreases |rows|
  {
    var p := rows[..|rows| - 1];
    if i < |rows| - 1 {
      assert p[..i] == rows[..i];
      GroupFailsAtFirst(lookup, nameOf, p, i);
    } else {
      assert p == rows[..i];
      GroupSucceedsIff(lookup, nameOf, p);
      GroupMemo(lookup, nameOf, p);
    }
  }

  /** The fuzzy lookup is called once per distinct name, in the order the
      names first appear, and never again for a name already seen. */
  lemma {:induction false} GroupLookups(lookup: CodeLookup, nameOf: NameLookup, rows: seq<Row>)
    requires AllResolve(lookup, rows)
    ensures Group(lookup, nameOf, rows).Success?
    ensures Group(lookup, nameOf, rows).value.lookups == Dedup(Names(lookup, rows))
    decreases |rows|
  {
    GroupSucceedsIff(lookup, nameOf, rows);
    if |rows| > 0 {
      var p := rows[..|rows| - 1];
      PrefixResolves(lookup, rows);
      GroupLookups(lookup, nameOf, p);
      GroupMemo(lookup, nameOf, p);
      var ns := Names(lookup, rows);
      assert ns[..|ns| - 1] == Names(lookup, p);
    }
  }

  /** `countries` holds one entry per distinct country name, in the order
      the names first appear: the original name, the code the lookup gave
      it, and the canonical name of that code. */
  lemma {:induction false} GroupCountries(lookup: CodeLookup, nameOf: NameLookup, rows: seq<Row>)
    requires AllResolve(lookup, rows)
    ensures Group(lookup, nameOf, rows).Success?
    ensures var cs := Group(lookup, nameOf, rows).value.countries;
            var ds := Dedup(Names(lookup, rows));
            && |cs| == |ds|
            && forall i :: 0 <= i < |cs| ==>
                 && cs[i].origname == ds[i]
                 && lookup(ds[i]) == Some(cs[i].iso3)
                 && cs[i].countryname == nameOf(cs[i].iso3)
    decreases |rows|
  {
    GroupLookups(lookup, nameOf, rows);
    CountriesMatchLookups(lookup, nameOf, rows);
  }

  lemma {:induction false} CountriesMatchLookups(lookup: CodeLookup, nameOf: NameLookup, rows: seq<Row>)
    requires Group(lookup, nameOf, rows).Success?
    ensures var s := Group(lookup, nameOf, rows).value;
            && |s.countries| == |s.lookups|
            && forall i :: 0 <= i < |s.countries| ==>
                 && s.countries[i].origname == s.lookups[i]
                 && lookup(s.lookups[i]) == Some(s.countries[i].iso3)
                 && s.countries[i].countryname == nameOf(s.countries[i].iso3)
    decreases |rows|
  {
    if |rows| > 0 {
      CountriesMatchLookups(lookup, nameOf, rows[..|rows| - 1]);
    }
  }

  /** The buckets are keyed by the distinct codes in first-appearance order,
      and the bucket of each code holds exactly the rows resolving to it, in
      row order, each tagged with its code. */
  ghost predicate BucketsFaithful(lookup: CodeLookup, rows: seq<Row>, d: Buckets)
    requires AllResolve(lookup, rows)
  {
    && d.keys == Dedup(Codes(lookup, rows))
    && (forall c :: c in d.lists <==> c in Codes(lookup, rows))
    && (forall c :: c in d.lists ==> d.lists[c] == Bucket(lookup, rows, c))
  }

  lemma {:induction false} GroupBuckets(lookup: CodeLookup, nameOf: NameLookup, rows: seq<Row>)
    requires AllResolve(lookup, rows)
    ensures Group(lookup, nameOf, rows).Success?
    ensures BucketsFaithful(lookup, rows, Group(lookup, nameOf, rows).value.data)
    decreases |rows|
  {
    GroupSucceedsIff(lookup, nameOf, rows);
    if |rows| > 0 {
      var p := rows[..|rows| - 1];
      var row := rows[|rows| - 1];
      PrefixResolves(lookup, rows);
      GroupBuckets(lookup, nameOf, p);
      var code := lookup(CountryName(row).value).value;
      GroupStepData(lookup, nameOf, rows);
      BucketsStep(lookup, rows, Group(lookup, nameOf, p).value.data, code);
    }
  }

  /** The last row of a pass goes into the bucket of its own code. */
  lemma GroupStepData(lookup: CodeLookup, nameOf: NameLookup, rows: seq<Row>)
    requires |rows| > 0 && AllResolve(lookup, rows)
    ensures Group(lookup, nameOf, rows).Success?
    ensures Group(lookup, nameOf, rows[..|rows| - 1]).Success?
    ensures var code := lookup(CountryName(rows[|rows| - 1]).value).value;
            Group(lookup, nameOf, rows).value.data
              == Add(Group(lookup, nameOf, rows[..|rows| - 1]).value.data, code, Tag(rows[|rows| - 1], code))
  {
    var p := rows[..|rows| - 1];
    var row := rows[|rows| - 1];
    PrefixResolves(lookup, rows);
    GroupSucceedsIff(lookup, nameOf, p);
    GroupMemo(lookup, nameOf, p);
    var s := Group(lookup, nameOf, p).value;
    assert Resolves(lookup, row);
    var name := CountryName(row).value;
    assert name in s.memo ==> s.memo[name] == lookup(name).value;
    StepData(lookup, nameOf, s, row, |rows| - 1);
  }

  /** A row whose name resolves, against a memo that agrees with the lookup,
      goes into the bucket of the code the lookup gives. */
  lemma StepData(lookup: CodeLookup, nameOf: NameLookup, s: State, row: Row, index: nat)
    requires Resolves(lookup, row)
    requires CountryName(row).value in s.memo ==> s.memo[CountryName(row).value] == lookup(CountryName(row).value).value
    ensures Step(lookup, nameOf, s, row, index).Success?
    ensures var code := lookup(CountryName(row).value).value;
            Step(lookup, nameOf, s, row, index).value.data == Add(s.data, code, Tag(row, code))
  {
  }

  lemma BucketsStep(lookup: CodeLookup, rows: seq<Row>, d0: Buckets, code: string)
    requires |rows| > 0 && AllResolve(lookup, rows)
    requires AllResolve(lookup, rows[..|rows| - 1])
    requires BucketsFaithful(lookup, rows[..|rows| - 1], d0)
    requires code == lookup(CountryName(rows[|rows| - 1]).value).value
    ensures BucketsFaithful(lookup, rows, Add(d0, code, Tag(rows[|rows| - 1], code)))
  {
    var p := rows[..|rows| - 1];
    PrefixResolves(lookup, rows);
    var cs0 := Codes(lookup, p);
    var d := Add(d0, code, Tag(rows[|rows| - 1], code));
    KeysStep(cs0, code, d0, d);
    if code !in d0.lists {
      BucketSize(lookup, p, code);
    }
    BucketContentsStep(lookup, rows, d0.lists, d.lists, code);
    FaithfulFromParts(lookup, rows, d, cs0 + [code]);
  }

  lemma FaithfulFromParts(lookup: CodeLookup, rows: seq<Row>, d: Buckets, cs: seq<string>)
    requires AllResolve(lookup, rows)
    requires Codes(lookup, rows) == cs
    requires d.keys == Dedup(cs)
    requires forall c :: c in d.lists <==> c in cs
    requires forall c :: c in d.lists ==> d.lists[c] == Bucket(lookup, rows, c)
    ensures BucketsFaithful(lookup, rows, d)
  {
  }

  lemma KeysStep(cs0: seq<string>, code: string, d0: Buckets, d: Buckets)
    requires d0.keys == Dedup(cs0)
    requires forall c :: c in d0.lists <==> c in cs0
    requires d.lists.Keys == d0.lists.Keys + {code}
    requires d.keys == if code in d0.lists then d0.keys else d0.keys + [code]
    ensures d.keys == Dedup(cs0 + [code])
    ensures forall c :: c in d.lists <==> c in cs0 + [code]
  {
    assert (cs0 + [code])[..|cs0|] == cs0;
  }

  lemma BucketContentsStep(lookup: CodeLookup, rows: seq<Row>, l0: map<string, seq<Row>>, l: map<string, seq<Row>>, code: string)
    requires |rows| > 0 && AllResolve(lookup, rows)
    requires AllResolve(lookup, rows[..|rows| - 1])
    requires forall c :: c in l0 ==> l0[c] == Bucket(lookup, rows[..|rows| - 1], c)
    requires code !in l0 ==> Bucket(lookup, rows[..|rows| - 1], code) == []
    requires code == lookup(CountryName(rows[|rows| - 1]).value).value
    requires l.Keys == l0.Keys + {code}
    requires l[code] == (if code in l0 then l0[code] else []) + [Tag(rows[|rows| - 1], code)]
    requires forall k :: k in l0 && k != code ==> l[k] == l0[k]
    ensures forall c :: c in l ==> l[c] == Bucket(lookup, rows, c)
  {
  }

  /** The buckets together hold every row exactly once: their sizes sum to
      the number of rows read. */
  lemma GroupRowCount(lookup: CodeLookup, nameOf: NameLookup, rows: seq<Row>)
    requires AllResolve(lookup, rows)
    ensures Group(lookup, nameOf, rows).Success?
    ensures TotalSize(Group(lookup, nameOf, rows).value.data) == |rows|
  {
    GroupBuckets(lookup, nameOf, rows);
    var d := Group(lookup, nameOf, rows).value.data;
    var cs := Codes(lookup, rows);
    forall c | c in d.lists
      ensures |d.lists[c]| == Count(cs, c)
    {
      BucketSize(lookup, rows, c);
    }
    SizeOverCounts(d.keys, d.lists, cs);
    SumCountsDedup(cs);
  }

  lemma {:induction false} BucketSize(lookup: CodeLookup, rows: seq<Row>, code: string)
    requires AllResolve(lookup, rows)
    ensures |Bucket(lookup, rows, code)| == Count(Codes(lookup, rows), code)
    decreases |rows|
  {
    if |rows| > 0 {
      PrefixResolves(lookup, rows);
      BucketSize(lookup, rows[..|rows| - 1], code);
      var cs := Codes(lookup, rows);
      assert cs[..|cs| - 1] == Codes(lookup, rows[..|rows| - 1]);
    }
  }

  lemma {:induction false} SizeOverCounts(keys: seq<string>, lists: map<string, seq<Row>>, cs: seq<string>)
    requires forall k :: k in keys ==> k in lists
    requires forall k :: k in lists ==> |lists[k]| == Count(cs, k)
    ensures SizeOver(keys, lists) == SumCounts(keys, cs)
  {
    if |keys| > 0 {
      SizeOverCounts(keys[..|keys| - 1], lists, cs);
    }
  }

  // -----------------------------------------------------------------------
  // The whole function

  /** `get_countriesdata` after the download: the grouped rows and the
      adjusted header, or the exception of the first row that does not
      resolve. */
  function GetCountriesData(lookup: CodeLookup, nameOf: NameLookup, headers: seq<string>, rows: seq<Row>)
    : (r: Result<CountriesData, GroupError>)
    ensures r.Success? <==> AllResolve(lookup, rows)
    ensures forall i :: 0 <= i < |rows| && AllResolve(lookup, rows[..i]) && !Resolves(lookup, rows[i]) ==>
              r == Failure(ErrorAt(rows[i], i))
    ensures r.Success? ==>
              && r.value.headers == AdjustHeaders(headers)
              && |r.value.countries| == |Dedup(Names(lookup, rows))|
              && (forall i :: 0 <= i < |r.value.countries| ==>
                    var c := r.value.countries[i];
                    && c.origname == Dedup(Names(lookup, rows))[i]
                    && lookup(c.origname) == Some(c.iso3)
                    && c.countryname == nameOf(c.iso3))
              && r.value.data.keys == Dedup(Codes(lookup, rows))
              && (forall c :: c in r.value.data.lists <==> c in Codes(lookup, rows))
              && (forall c :: c in r.value.data.lists ==> r.value.data.lists[c] == Bucket(lookup, rows, c))
              && TotalSize(r.value.data) == |rows|
  {
    GroupSucceedsIff(lookup, nameOf, rows);
    forall i | 0 <= i < |rows| && AllResolve(lookup, rows[..i]) && !Resolves(lookup, rows[i])
      ensures Group(lookup, nameOf, rows) == Failure(ErrorAt(rows[i], i))
    {
      GroupFailsAtFirst(lookup, nameOf, rows, i);
    }
    match Group(lookup, nameOf, rows)
    case Failure(e) => Failure(e)
    case Success(s) =>
      GroupCountries(lookup, nameOf, rows);
      GroupBuckets(lookup, nameOf, rows);
      GroupRowCount(lookup, nameOf, rows);
      Success(CountriesData(s.countries, AdjustHeaders(headers), s.data))
  }
}
