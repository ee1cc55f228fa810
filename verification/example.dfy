/** A worked example in the model: one 1990 event in Bangladesh (UCDP
    country id 771), grouped, given its years and published. */
module Example {
  import opened Wrappers
  import opened Rows
  import opened Headers
  import opened Grouping
  import Seqs
  import Text
  import Years
  import Publication

  const Event: Row := map[
    "country" := Str("Bangladesh"),
    "date_start" := Str("1990-05-10"),
    "date_end" := Str("1990-05-10"),
    "best" := Str("2"),
    "where_coordinates" := Str("Chittagong Division"),
    "adm_1" := Str("Chittagong Division"),
    "adm_2" := Str(""),
    "country_id" := Str("771")]

  const Bangladesh := Country("BGD", Some("Bangladesh"), "Bangladesh")

  /** Grouping the single event gives one country and one bucket holding
      the event tagged with its code. */
  lemma ExampleGrouping(lookup: CodeLookup, nameOf: NameLookup, headers: seq<string>)
    requires lookup("Bangladesh") == Some("BGD")
    requires nameOf("BGD") == Some("Bangladesh")
    ensures GetCountriesData(lookup, nameOf, headers, [Event])
            == Success(CountriesData([Bangladesh], AdjustHeaders(headers),
                                     Buckets(["BGD"], map["BGD" := [Tag(Event, "BGD")]])))
  {
    var rows := [Event];
    assert rows[..0] == [];
    assert CountryName(Event) == Some("Bangladesh");
    var data := Buckets(["BGD"], map["BGD" := [Tag(Event, "BGD")]]);
    assert Add(Start.data, "BGD", Tag(Event, "BGD")) == data;
    assert "Bangladesh" !in Start.memo;
    assert Start.countries + [Country("BGD", nameOf("BGD"), "Bangladesh")] == [Bangladesh];
    assert Start.lookups + ["Bangladesh"] == ["Bangladesh"];
    var s := State(map["Bangladesh" := "BGD"], [Bangladesh], data, ["Bangladesh"]);
    assert Step(lookup, nameOf, Start, Event, 0) == Success(s);
    assert Group(lookup, nameOf, rows) == Success(s);
  }

  /** Both dates fall in 1990, so the year set is just 1990. */
  lemma ExampleYears()
    ensures Years.ProcessYear({}, Event).Success?
    ensures Years.ProcessYear({}, Event).value.years == {1990}
    ensures Years.ProcessYear({}, Event).value.row["start_year"] == Int(1990)
  {
    FormatNineteenNinety();
    assert Event["date_start"] == Str(Text.FormatNat(1990) + "-05-10");
    assert Event["date_end"] == Str(Text.FormatNat(1990) + "-05-10");
    Years.ProcessYearIsoDates({}, Event, 1990, "-05-10", 1990, "-05-10");
  }

  /** Both dates of the event read as 1990. */
  lemma ExampleDates()
    ensures Years.StartYear(Event) == Success(1990)
    ensures Years.EndYear(Event) == Success(1990)
  {
    ExampleYears();
  }

  /** The pass over the country's one row collects 1990 and keeps the row's
      `country_id`. */
  lemma ExamplePass()
    ensures var r := Years.ProcessRows({}, [Event]);
            && r.Success? && r.value.years == {1990}
            && |r.value.rows| == 1 && r.value.rows[0]["country_id"] == Str("771")
  {
    ExampleDates();
    Years.ProcessRowsSingle({}, Event);
    ExampleStamped();
  }

  lemma ExampleStamped()
    ensures Years.Stamped(Event)["country_id"] == Str("771")
  {
    ExampleDates();
  }

  /** A start date that begins with the separator `\x1c` has no year:
      `int()` does not skip that character, so reading it raises
      `ValueError`. */
  lemma ExampleSeparatorDate()
    ensures var row: Row := map["date_start" := Str("\U{1C}199-01-01")];
            Years.YearOf(row, "date_start") == Failure(Years.ValueError("date_start"))
  {
    var p := Text.Prefix("\U{1C}199-01-01", 4);
    assert p[0] == '\U{1C}';
    Text.ParseIntRejectsForeign(p, 0);
  }

  lemma FormatNineteenNinety()
    ensures Text.FormatNat(1990) == "1990"
  {
    assert Text.FormatNat(1) == "1";
    assert Text.FormatNat(19) == "19";
    assert Text.FormatNat(199) == "199";
  }

  /** With python-slugify's lower-case slug, the HDX dataset, its file and
      its showcase get these names, and the showcase links to the country's
      page on the UCDP site. */
  lemma ExamplePublication(slugify: Publication.Slugify)
    requires slugify("UCDP Data for Bangladesh") == "ucdp-data-for-bangladesh"
    ensures var r := Publication.GenerateDatasetAndShowcase(slugify, Bangladesh, [Event], true);
            && r.Success? && r.value.Some?
            && r.value.value.dataset.name == "ucdp-data-for-bangladesh"
            && r.value.value.dataset.title == "Bangladesh - Conflict Data"
            && r.value.value.dataset.resource.filename == "conflict_data_BGD.csv"
            && r.value.value.showcase.name == "ucdp-data-for-bangladesh-showcase"
            && r.value.value.showcase.url == "https://ucdp.uu.se/#country/771"
  {
    ExampleDataset(slugify);
    ExampleShowcase();
    var d := Publication.MakeDataset(slugify, Bangladesh);
    var sc := Publication.Showcase(
      Publication.ShowcaseName(d.name), d.title, "Conflict Data Dashboard for " + "Bangladesh",
      Publication.ShowcaseUrl(Str("771")), Publication.ImageUrl, Publication.Tags);
    assert Publication.DisplayName(Bangladesh.countryname) == "Bangladesh";
    ExamplePass();
    assert [Event][0] == Event && "country_id" in Event && Event["country_id"] == Str("771");
    assert Publication.GenerateDatasetAndShowcase(slugify, Bangladesh, [Event], true)
           == Success(Some(Publication.Publication(d, sc)));
  }

  lemma ExampleDataset(slugify: Publication.Slugify)
    requires slugify("UCDP Data for Bangladesh") == "ucdp-data-for-bangladesh"
    ensures var d := Publication.MakeDataset(slugify, Bangladesh);
            && d.name == "ucdp-data-for-bangladesh"
            && d.title == "Bangladesh - Conflict Data"
            && d.resource.filename == "conflict_data_BGD.csv"
  {
    ExampleDatasetName(slugify);
    ExampleTitle(slugify);
    ExampleFilename(slugify);
  }

  lemma ExampleDatasetName(slugify: Publication.Slugify)
    requires slugify("UCDP Data for Bangladesh") == "ucdp-data-for-bangladesh"
    ensures Publication.MakeDataset(slugify, Bangladesh).name == "ucdp-data-for-bangladesh"
  {
    assert "UCDP Data for " + "Bangladesh" == "UCDP Data for Bangladesh";
    LowerSlug();
  }

  lemma ExampleTitle(slugify: Publication.Slugify)
    ensures Publication.MakeDataset(slugify, Bangladesh).title == "Bangladesh - Conflict Data"
  {
    assert Publication.DisplayName(Bangladesh.countryname) == "Bangladesh";
    assert Publication.Title("Bangladesh") == "Bangladesh" + Publication.TitleSuffix;
    assert "Bangladesh" + " - Conflict Data" == "Bangladesh - Conflict Data";
  }

  lemma ExampleFilename(slugify: Publication.Slugify)
    ensures Publication.MakeDataset(slugify, Bangladesh).resource.filename == "conflict_data_BGD.csv"
  {
  }

  lemma ExampleShowcase()
    ensures Publication.ShowcaseName("ucdp-data-for-bangladesh") == "ucdp-data-for-bangladesh-showcase"
    ensures Publication.ShowcaseUrl(Str("771")) == "https://ucdp.uu.se/#country/771"
  {
  }

  lemma LowerSlug()
    ensures Text.Lower("ucdp-data-for-bangladesh") == "ucdp-data-for-bangladesh"
  {
    var slug := "ucdp-data-for-bangladesh";
    forall i | 0 <= i < |slug|
      ensures Text.LowerChar(slug[i]) == slug[i]
    {
    }
  }

  /** Two spellings of one country resolve to the same code: the memo is
      keyed by the spelling, so `countries` lists the code twice while the
      rows share one bucket. */
  lemma ExampleAliases(lookup: CodeLookup, nameOf: NameLookup, headers: seq<string>)
    requires lookup("Burma") == Some("MMR") && lookup("Myanmar") == Some("MMR")
    ensures var r := GetCountriesData(lookup, nameOf, headers,
                                      [map["country" := Str("Burma")], map["country" := Str("Myanmar")]]);
            && r.Success?
            && |r.value.countries| == 2
            && r.value.countries[0].iso3 == "MMR" && r.value.countries[1].iso3 == "MMR"
            && r.value.data.keys == ["MMR"]
  {
    var rows: seq<Row> := [map["country" := Str("Burma")], map["country" := Str("Myanmar")]];
    assert CountryName(rows[0]) == Some("Burma");
    assert CountryName(rows[1]) == Some("Myanmar");
    assert AllResolve(lookup, rows);
    var ns := Names(lookup, rows);
    assert ns == ["Burma", "Myanmar"];
    assert ns[..1] == ["Burma"];
    assert Seqs.Dedup(ns) == ["Burma", "Myanmar"];
    var cs := Codes(lookup, rows);
    assert cs == ["MMR", "MMR"];
    assert cs[..1] == ["MMR"];
    assert Seqs.Dedup(cs) == ["MMR"];
  }
}
