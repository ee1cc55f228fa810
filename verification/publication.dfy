/** `generate_dataset_and_showcase` (ucdp.py lines 53-103) and the
    module-level HXL tag table (lines 25-30): for one country, the HDX
    dataset with its single conflict-data resource and, when the resource
    could be generated, the showcase that links to the UCDP country page. */
module Publication {
  import opened Wrappers
  import opened Text
  import opened Rows
  import opened Headers
  import opened Grouping
  import Years

  // -----------------------------------------------------------------------
  // Constants

  /** `hxltags`: the HXL hashtag written under each column of the output. */
  const HxlTags: map<string, string> := map[
    "year" := "#date+year",
    "start_year" := "#date+year+start",
    "end_year" := "#date+year+end",
    "side_a" := "#group+name+first",
    "side_b" := "#group+name+second",
    "source_article" := "#meta+source",
    "source_headline" := "#description",
    "where_coordinates" := "#loc+name",
    "adm_1" := "#adm1+name",
    "adm_2" := "#adm2+name",
    "latitude" := "#geo+lat",
    "longitude" := "#geo+lon",
    "country" := "#country+name",
    "iso3" := "#country+code",
    "region" := "#region+name",
    "date_start" := "#date+start",
    "date_end" := "#date+end",
    "best" := "#affected+killed"]

  /** The quick-charts settings handed to the resource generator: the
      cut-down mode and the hashtags of the columns the charts plot. */
  datatype QuickCharts = QuickCharts(cutdown: nat, cutdownHashtags: seq<string>)

  const Charts := QuickCharts(2, ["#date+year+end", "#adm1+name", "#affected+killed"])

  /** The columns whose hashtags the quick charts plot, in the same order. */
  const ChartColumns: seq<string> := ["end_year", "adm_1", "best"]

  const Maintainer := "196196be-6037-4488-8b71-d786adf4c081"
  const Organization := "hdx"
  const UpdateFrequency := "Every day"
  const Tags: seq<string> := ["hxl", "violence and conflict", "protests", "security incidents"]
  const ResourceDescription := "Conflict data with HXL tags"
  const ImageUrl := "https://pbs.twimg.com/profile_images/832251660718178304/y-LWa5iK_200x200.jpg"

  const TitleSuffix := " - Conflict Data"
  const FilePrefix := "conflict_data_"
  const FileSuffix := ".csv"
  const ShowcaseSuffix := "-showcase"
  const CountryPageUrl := "https://ucdp.uu.se/#country/"

  // -----------------------------------------------------------------------
  // The records built

  /** The resource the dataset gets: the file it is written to, its
      metadata, and the tag table and charts the generator is given. */
  datatype Resource = Resource(
    filename: string,
    name: string,
    description: string,
    hxltags: map<string, string>,
    charts: QuickCharts)

  datatype Dataset = Dataset(
    name: string,
    title: string,
    maintainer: string,
    organization: string,
    updateFrequency: string,
    subnational: bool,
    location: string,
    tags: seq<string>,
    resource: Resource)

  datatype Showcase = Showcase(
    name: string,
    title: string,
    notes: string,
    url: string,
    imageUrl: string,
    tags: seq<string>)

  /** The pair `(dataset, showcase)` returned when there is data. */
  datatype Publication = Publication(dataset: Dataset, showcase: Showcase)

  /** The exceptions the function lets through: `process_year` failed on a
      row while the resource was generated, or, building the showcase URL,
      the country's rows are empty or the first row has no `country_id`. */
  datatype PublishError = YearFailed(error: Years.YearError) | IndexError | KeyError(column: string)

  /** `slugify` from python-slugify, whose rules are not modelled. */
  type Slugify = string -> string

  // -----------------------------------------------------------------------
  // Names

  /** `'%s' % countryname`: the canonical name, or `None` when the catalog
      has no name for the code. */
  function DisplayName(name: Option<string>): (r: string)
    ensures name.Some? ==> r == name.value
    ensures name.None? ==> r == "None"
  {
    match name
    case Some(n) => n
    case None => "None"
  }

  /** `'%s - Conflict Data' % countryname`. */
  function Title(countryname: string): (r: string)
    ensures |r| == |countryname| + |TitleSuffix|
    ensures StripSuffix(r, TitleSuffix) == Some(countryname)
  {
    var r := countryname + TitleSuffix;
    assert r[|r| - |TitleSuffix|..] == TitleSuffix;
    r
  }

  /** The country name a dataset title was made from, if it is one. */
  function TitleCountry(title: string): Option<string> {
    StripSuffix(title, TitleSuffix)
  }

  /** Titles and country names correspond one to one. */
  lemma TitleRoundTrip(countryname: string, title: string)
    ensures TitleCountry(Title(countryname)) == Some(countryname)
    ensures TitleCountry(title) == Some(countryname) <==> Title(countryname) == title
  {
  }

  /** Two strings that differ at most in the case of ASCII letters. */
  predicate SameUpToCase(a: string, b: string) {
    |a| == |b| && forall i :: 0 <= i < |a| ==> LowerChar(a[i]) == LowerChar(b[i])
  }

  /** `slugify('UCDP Data for %s' % countryname).lower()`. */
  function DatasetName(slugify: Slugify, countryname: string): (r: string)
    ensures SameUpToCase(r, slugify("UCDP Data for " + countryname))
    ensures forall i :: 0 <= i < |r| ==> !IsUpper(r[i])
  {
    Lower(slugify("UCDP Data for " + countryname))
  }

  /** The dataset name is already lower case, so lowering it again (as any
      further `.lower()` would) changes nothing. */
  lemma DatasetNameLowered(slugify: Slugify, countryname: string)
    ensures Lower(DatasetName(slugify, countryname)) == DatasetName(slugify, countryname)
  {
    LowerIsLower(slugify("UCDP Data for " + countryname));
  }

  /** `'conflict_data_%s.csv' % countryiso`. */
  function Filename(iso3: string): (r: string)
    ensures |r| == |FilePrefix| + |iso3| + |FileSuffix|
    ensures FilePrefix <= r
  {
    FilePrefix + iso3 + FileSuffix
  }

  /** The country code a resource file name was made from, if it is one. */
  function FilenameCountry(filename: string): Option<string> {
    match StripPrefix(filename, FilePrefix)
    case None => None
    case Some(rest) => StripSuffix(rest, FileSuffix)
  }

  /** File names and country codes correspond one to one, so no two
      countries write to the same file. */
  lemma FilenameRoundTrip(iso3: string, filename: string)
    ensures FilenameCountry(Filename(iso3)) == Some(iso3)
    ensures FilenameCountry(filename) == Some(iso3) <==> Filename(iso3) == filename
  {
    var f := Filename(iso3);
    assert f[|FilePrefix|..] == iso3 + FileSuffix;
    assert (iso3 + FileSuffix)[|iso3|..] == FileSuffix;
  }

  lemma FilenameInjective(a: string, b: string)
    requires Filename(a) == Filename(b)
    ensures a == b
  {
    FilenameRoundTrip(a, Filename(a));
    FilenameRoundTrip(b, Filename(b));
  }

  /** `'%s-showcase' % slugified_name`. */
  function ShowcaseName(datasetName: string): (r: string)
    ensures StripSuffix(r, ShowcaseSuffix) == Some(datasetName)
  {
    var r := datasetName + ShowcaseSuffix;
    assert r[|r| - |ShowcaseSuffix|..] == ShowcaseSuffix;
    r
  }

  /** `'https://ucdp.uu.se/#country/%s' % countrydata[0]['country_id']`. */
  function ShowcaseUrl(countryId: Value): (r: string)
    ensures StripPrefix(r, CountryPageUrl) == Some(Show(countryId))
  {
    var r := CountryPageUrl + Show(countryId);
    assert r[..|CountryPageUrl|] == CountryPageUrl;
    r
  }

  /** UCDP's country ids are text cells of decimal digits (`"771"`); the id
      is the tail of the showcase URL and reads back as its number. */
  lemma ShowcaseUrlCountryId(id: string)
    requires |id| > 0 && AllDigits(id)
    ensures var rest := StripPrefix(ShowcaseUrl(Str(id)), CountryPageUrl);
            rest == Some(id) && ParseInt(rest.value) == Some(DigitsValue(id))
  {
    ParseIntDigits(id);
  }

  // -----------------------------------------------------------------------
  // The whole function

  /** The dataset as built before the resource is generated. */
  function MakeDataset(slugify: Slugify, country: Country): (d: Dataset)
    ensures TitleCountry(d.title) == Some(DisplayName(country.countryname))
    ensures FilenameCountry(d.resource.filename) == Some(country.iso3)
    ensures d.location == country.iso3
    ensures d.resource.name == "Conflict Data for " + DisplayName(country.countryname)
  {
    var name := DisplayName(country.countryname);
    TitleRoundTrip(name, Title(name));
    FilenameRoundTrip(country.iso3, Filename(country.iso3));
    Dataset(
      DatasetName(slugify, name),
      Title(name),
      Maintainer,
      Organization,
      UpdateFrequency,
      true,
      country.iso3,
      Tags,
      Resource(Filename(country.iso3), "Conflict Data for " + name, ResourceDescription, HxlTags, Charts))
  }

  /** `generate_dataset_and_showcase(folder, country, countrydata, headers)`.
      The resource generator runs `process_year` on every row, in order and
      from an empty set of years, before it reports; an exception there ends
      the function. Whether it reports data is the parameter `success`.
      `Success(None)` is the `(None, None)` returned when there is no data.
      The showcase URL reads `country_id` from the first row as
      `process_year` left it, which is the id the row came with. */
  function GenerateDatasetAndShowcase(slugify: Slugify, country: Country, countrydata: seq<Row>, success: bool)
    : (r: Result<Option<Publication>, PublishError>)
    ensures !Years.AllDated(countrydata) ==> r == Failure(YearFailed(Years.ProcessRows({}, countrydata).error))
    ensures Years.AllDated(countrydata) && !success ==> r == Success(None)
    ensures Years.AllDated(countrydata) && success && |countrydata| == 0 ==> r == Failure(IndexError)
    ensures Years.AllDated(countrydata) && success && |countrydata| > 0 && "country_id" !in countrydata[0] ==>
              r == Failure(KeyError("country_id"))
    ensures r.Success? && r.value.Some? <==>
              Years.AllDated(countrydata) && success && |countrydata| > 0 && "country_id" in countrydata[0]
    ensures r.Success? && r.value.Some? ==>
              var p := r.value.value;
              && p.dataset.name == DatasetName(slugify, DisplayName(country.countryname))
              && TitleCountry(p.dataset.title) == Some(DisplayName(country.countryname))
              && FilenameCountry(p.dataset.resource.filename) == Some(country.iso3)
              && p.dataset.location == country.iso3
              && p.showcase.title == p.dataset.title
              && StripSuffix(p.showcase.name, ShowcaseSuffix) == Some(p.dataset.name)
              && StripPrefix(p.showcase.url, CountryPageUrl) == Some(Show(countrydata[0]["country_id"]))
              && p.showcase.tags == p.dataset.tags
  {
    var dataset := MakeDataset(slugify, country);
    match Years.ProcessRows({}, countrydata)
    case Failure(e) => Failure(YearFailed(e))
    case Success(pass) =>
      if !success then Success(None)
      else if |pass.rows| == 0 then Failure(IndexError)
      else
        var first := pass.rows[0];
        assert first == Years.Stamped(countrydata[0]);
        if "country_id" !in first then Failure(KeyError("country_id"))
        else
          var name := DisplayName(country.countryname);
          var showcase := Showcase(
            ShowcaseName(dataset.name),
            dataset.title,
            "Conflict Data Dashboard for " + name,
            ShowcaseUrl(first["country_id"]),
            ImageUrl,
            Tags);
          Success(Some(Publication(dataset, showcase)))
  }

  /** A row whose start or end date does not begin with a year, such as a
      `date_start` of `"abcd"`, makes the function raise that row's
      exception (the first such row's), however the generator would have
      reported: nothing is published. */
  lemma GenerateFailsAtFirstUndated(slugify: Slugify, country: Country, countrydata: seq<Row>,
                                    success: bool, k: nat)
    requires k < |countrydata| && Years.AllDated(countrydata[..k]) && !Years.Dated(countrydata[k])
    ensures GenerateDatasetAndShowcase(slugify, country, countrydata, success)
            == Failure(YearFailed(Years.ProcessYear({}, countrydata[k]).error))
  {
    Years.ProcessRowsFailsAtFirst({}, countrydata, k);
  }

  // -----------------------------------------------------------------------
  // Consistency of the tag table with the rest of the connector

  /** Each chart hashtag is the tag of the matching chart column. */
  lemma ChartColumnsTagged()
    ensures |ChartColumns| == |Charts.cutdownHashtags|
    ensures forall i :: 0 <= i < |ChartColumns| ==>
              ChartColumns[i] in HxlTags && HxlTags[ChartColumns[i]] == Charts.cutdownHashtags[i]
  {
  }

  /** Every column `get_countriesdata` adds to the header has a hashtag,
      so the added columns are tagged in the output. */
  lemma InsertedColumnsTagged(h: seq<string>)
    ensures forall c :: c in AdjustHeaders(h) && c !in h ==> c in InsertedColumns && c in HxlTags
  {
    forall c | c in AdjustHeaders(h) && c !in h
      ensures c in InsertedColumns && c in HxlTags
    {
      assert multiset(AdjustHeaders(h))[c] > 0;
      assert multiset(h)[c] == 0;
    }
  }

  /** When the download has the `adm_1` and `best` columns, every column a
      quick chart plots is in the adjusted header. */
  lemma ChartColumnsPresent(h: seq<string>)
    requires "adm_1" in h && "best" in h
    ensures forall c :: c in ChartColumns ==> c in AdjustHeaders(h)
  {
    var r := AdjustHeaders(h);
    assert multiset(r) == multiset(h) + multiset(InsertedColumns);
    assert multiset(r)["end_year"] > 0;
    assert multiset(r)["adm_1"] > 0;
    assert multiset(r)["best"] > 0;
  }

  /** The columns `process_year` and the grouping write are all tagged. */
  lemma WrittenColumnsTagged()
    ensures "start_year" in HxlTags && "end_year" in HxlTags && "iso3" in HxlTags
    ensures HxlTags["start_year"] != HxlTags["end_year"]
  {
  }

  /** No two columns share a hashtag, so every tag names one column. */
  lemma HxlTagsInjective(a: string, b: string)
    requires a in HxlTags && b in HxlTags && HxlTags[a] == HxlTags[b]
    ensures a == b
  {
  }
}
