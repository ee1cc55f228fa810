# UCDP connector core, modelled in Dafny

This project models the core of the HDX connector for the Uppsala Conflict
Data Program (UCDP) dataset, `ucdp.py`. The core does four things:

- **Grouping** (`get_countriesdata`). It reads the downloaded conflict-event
  rows in order. Each distinct `country` spelling is resolved to an ISO3 code
  once, through a memo that wraps the fuzzy country lookup. Every row is tagged
  with its code and appended to the bucket of that code. The countries are
  listed in the order they first appear. Finally the header list gets
  `iso3`, `end_year` and `start_year` inserted with Python's `list.insert`.
- **Years** (`process_year`). This is the year function handed to the resource
  generator. It reads `int(date[:4])` from the start and end dates, adds both
  years to a set, and writes them back onto the row. The resource generator
  calls it on every row of a country, in order; the model runs that pass as a
  fold, so an exception on any row ends the publication.
- **Publication** (`generate_dataset_and_showcase`). For one country it names
  the dataset, its title, its CSV file, the showcase and the showcase's UCDP
  country-page URL. It returns no pair when the resource generator reports
  no data.
- **Tag table** (`hxltags`) and the quick-chart hashtags. Lemmas show that the
  table covers every column the connector adds and every hashtag the quick
  charts plot.

Modules, in dependency order:

- `Wrappers`: `Option` and `Result`.
- `Seqs`: first-occurrence de-duplication and counting.
- `Text`: ASCII models of Python's `s[:n]`, `int(s)`, `str(n)`, `s.lower()`,
  plus prefix and suffix stripping.
- `Rows`: a row is a map from column name to a text or integer cell.
- `Headers`: `list.insert` and the header adjustment.
- `Grouping`: `get_countriesdata`, with reference definitions stated row by row
  and without the memo.
- `Years`: `process_year`.
- `Publication`: `hxltags`, the metadata constants and
  `generate_dataset_and_showcase`.
- `Example`: the worked scenario of a 1990 event in Bangladesh, plus the case
  of two spellings of one country.

Some things the connector calls are external, and the model takes them as
parameters:

- the fuzzy lookup `Country.get_iso3_country_code_fuzzy`;
- the catalog name `Country.get_country_name_from_iso3`;
- `slugify`;
- the outcome of `Dataset.generate_resource_from_download`.

Each exception that `ucdp.py` itself raises is modelled as a `Failure` value,
and it ends the enclosing function as it does in Python:

- `KeyError` for a missing column;
- `ValueError` when the lookup finds no match or a date is not numeric;
- `TypeError` when a date cell already holds an integer;
- `IndexError` when a country has no rows.

Exceptions raised inside the libraries the connector calls are not modelled
(see "Left out").

Three behaviours of `ucdp.py` are easy to misread, and the model keeps them:

- The memo in `get_countriesdata` is keyed by the country *spelling*
  (ucdp.py:39-43), not by the code. Two spellings that resolve to the same
  code therefore give two `countries` entries but share one bucket
  (`Example.ExampleAliases`).
- `process_year` only collects a set of years (ucdp.py:82-83). It takes no
  minimum or maximum. Those are taken by the resource generator, which is not
  part of this model.
- The showcase URL uses the `country_id` of the first row of the country
  (ucdp.py:99). The other rows' ids are never read.

## Model

| member | source | states |
|---|---|---|
| Grouping.GetCountriesData | ucdp.py:33-50 | Succeeds exactly when every row has a `country` the lookup matches, and otherwise fails with the exception of the first row that does not. On success, the header is the adjusted header. There is one country per distinct spelling, with its original name, looked-up code and catalog name. The buckets are keyed by distinct code in first-appearance order, each bucket holds exactly the rows of that code, and the bucket sizes sum to the number of rows. |
| Grouping.Tag | ucdp.py:45 | The row gains `iso3` holding the code and keeps every other column unchanged. |
| Grouping.Add | ucdp.py:46 | `dict_of_lists_add`: the row is appended to the list under its key, a new key is created last, and other keys are untouched. |
| Grouping.GroupSucceedsIff | ucdp.py:38-44 | The pass finishes exactly when every row resolves; there is no fallback code. |
| Grouping.GroupFailsAtFirst | ucdp.py:38-42 | The first row without a `country` column raises `KeyError`, and the first row the lookup cannot match raises `ValueError` at that row. The exception carries no payload in the source. `Unresolved(name)` records the name only so that the model can say which row raised. |
| Grouping.GroupMemo | ucdp.py:39-43 | After a pass, the memo holds exactly the spellings seen, each mapped to the code the lookup gives it. |
| Grouping.GroupLookups | ucdp.py:40-43 | The fuzzy lookup is called once per distinct spelling, in first-appearance order, and never twice for one spelling. |
| Grouping.GroupCountries | ucdp.py:41-44 | `countries` has one entry per distinct spelling, in first-appearance order. Each entry holds that spelling, the code the lookup gives it, and the catalog name of the code. |
| Grouping.GroupBuckets | ucdp.py:45-46 | The keys are the distinct codes in first-appearance order. Each bucket is exactly the rows resolving to its code, in row order, each tagged with the code. |
| Grouping.GroupRowCount | ucdp.py:38-46 | Every row lands in exactly one bucket, so the bucket sizes sum to the number of rows. |
| Grouping.BucketSize | ucdp.py:45-46 | The bucket of a code holds as many rows as there are rows resolving to that code. |
| Seqs.DedupFirstOccurrenceOrder | ucdp.py:41-44 | The de-duplicated list keeps the elements in the order of their first occurrence. |
| Seqs.SumCountsDedup | ucdp.py:46 | Summing, over the distinct elements, the number of times each occurs counts every position once. |
| Headers.Insert | ucdp.py:47-49 | `list.insert` adds one element at the given index, or at the end when the index is past the end. Removing that element gives back the list. |
| Headers.AdjustHeaders | ucdp.py:47-49 | The adjusted header is three columns longer and holds exactly the original columns plus `start_year`, `end_year` and `iso3`. |
| Headers.AdjustHeadersLayout | ucdp.py:47-49 | For a header of at least three columns, `start_year` and `end_year` follow the first three columns. `iso3` follows the original column 29, or ends the list when the header is shorter than 30. Original order is kept. |
| Headers.AdjustHeadersPositions | ucdp.py:47-49 | For a header of at least 30 columns, the new columns are at indices 3, 4 and 32, and the original columns fill the rest in order. |
| Headers.AdjustHeadersRemoves | ucdp.py:47-49 | Removing indices 32, 4 and 3 from a long adjusted header gives back the downloaded header. |
| Years.YearOf | ucdp.py:80-81 | `int(row[column][:4])`. Any exception it raises concerns the column it read. A year it returns lies between -999 and 9999, because `int()` of four characters has at most four digits, or three after a minus sign. |
| Text.ParseIntFourChars | ucdp.py:80-81 | `int()` of at most four characters, when it succeeds, lies between -999 and 9999. |
| Years.WriteYears | ucdp.py:84-85 | The row gains `start_year` and `end_year` holding the years, and keeps every other column. |
| Years.ProcessYear | ucdp.py:79-85 | Succeeds exactly when both dates give a year, and otherwise raises the start date's error first. On success, the set keeps all old years, gains both years and nothing else, and the row holds both years with its other columns unchanged. |
| Years.ProcessYearIsoDates | ucdp.py:79-83 | For dates starting with a four-digit year, the recorded years are exactly those two years. |
| Years.ProcessYearRejectsNonNumeric | ucdp.py:80-81 | A date whose first four characters include anything other than digits, signs, underscores or the six whitespace characters `int()` ignores (space, `\t`, `\n`, `\v`, `\f`, `\r`) raises `ValueError` for that column. An ASCII separator such as `\x1c` is rejected too. |
| Years.ProcessYearIdempotent | ucdp.py:79-85 | Running `process_year` again on the row and set it produced changes neither. |
| Years.ProcessRows | ucdp.py:79-90 | Applying `process_year` to each row in turn succeeds exactly when both dates of every row give a year. On success, the rows keep their number and order and each gains its own two years. The set is the starting set plus every start year and every end year, against a reference set defined row by row. |
| Years.ProcessRowsSingle | ucdp.py:79-90 | For a country with one dated row, the pass records exactly that row's two years and writes them onto the row. |
| Years.ProcessRowsFailsAtFirst | ucdp.py:79-90 | The pass raises the exception of the first row whose dates cannot be read, whatever the later rows hold. |
| Text.Prefix | ucdp.py:80-81 | `s[:n]` is the first `n` characters, or all of `s` when shorter. |
| Text.ParseIntFormatNat | ucdp.py:80-81 | `int()` reads back exactly the natural number `str()` writes. |
| Text.ParseIntRejectsForeign | ucdp.py:80-81 | `int()` rejects any text holding a character other than digits, signs, underscores or the six ASCII whitespace characters it ignores at the ends. |
| Text.LowerIsLower | ucdp.py:60 | `.lower()` leaves no upper-case ASCII letter and is idempotent. |
| Rows.Show | ucdp.py:99 | `'%s' % cell` gives a text cell as it is, and writes a non-negative integer cell so that `int()` reads it back. |
| Publication.Title | ucdp.py:58 | The title is the country name followed by ` - Conflict Data`, and stripping that suffix gives the name back. |
| Publication.TitleRoundTrip | ucdp.py:58 | Titles and country names correspond one to one, in both directions. |
| Publication.DatasetName | ucdp.py:60 | The dataset name is the slug of `UCDP Data for <name>` up to ASCII case, and has no upper-case letter. |
| Publication.DatasetNameLowered | ucdp.py:60 | Lower-casing the dataset name again changes nothing. |
| Publication.Filename | ucdp.py:73 | The file name starts with `conflict_data_` and is as long as the prefix, code and `.csv` together. |
| Publication.FilenameRoundTrip | ucdp.py:73 | The code can be read back from the file name, and a file name reads back to a code exactly when it is that code's file name. |
| Publication.FilenameInjective | ucdp.py:73 | Two countries with different codes never write to the same file. |
| Publication.ShowcaseName | ucdp.py:96 | Stripping `-showcase` from the showcase name gives the dataset name. |
| Publication.ShowcaseUrl | ucdp.py:99 | Stripping the UCDP country-page prefix from the URL gives the text of the country id. |
| Publication.ShowcaseUrlCountryId | ucdp.py:99 | A `country_id` given as a text of decimal digits, as UCDP's ids are, is exactly the tail of the showcase URL, and `int()` of that tail is the id's number. |
| Publication.MakeDataset | ucdp.py:56-77 | The dataset's title reads back to the display name, its file name reads back to the code, its location is the code, and its resource is named after the country. |
| Publication.GenerateDatasetAndShowcase | ucdp.py:53-103 | Raises the `process_year` exception when some row's dates cannot be read, since the generator runs it on every row before it reports. Otherwise it returns no pair when the generator reports no data, raises `IndexError` for a country without rows, and raises `KeyError` when the first row has no `country_id`. Otherwise it returns a pair. The dataset name is the lower-cased slug and the title and file name read back to the country and code. The showcase shares the dataset's title and tags, its name is the dataset name plus `-showcase`, and its URL carries the first row's `country_id`. |
| Publication.GenerateFailsAtFirstUndated | ucdp.py:79-93 | A row whose start or end date does not begin with a year, such as `date_start` = `"abcd"`, makes the function raise that row's exception, whatever the generator would report. Nothing is published. |
| Publication.ChartColumnsTagged | ucdp.py:87 | Each quick-chart hashtag is the `hxltags` entry of `end_year`, `adm_1` and `best` respectively. |
| Publication.InsertedColumnsTagged | ucdp.py:47-49 | Every column the header adjustment adds is one of the three derived columns, and each has an `hxltags` entry. |
| Publication.ChartColumnsPresent | ucdp.py:87 | When the download has `adm_1` and `best`, every column a quick chart plots is in the adjusted header. |
| Publication.WrittenColumnsTagged | ucdp.py:25-30 | The columns the connector writes (`start_year`, `end_year`, `iso3`) all have hashtags, and the two year tags differ. |
| Publication.HxlTagsInjective | ucdp.py:25-30 | No two columns share a hashtag. |
| Example.ExampleGrouping | ucdp.py:33-50 | A single Bangladesh event groups into one country `BGD` and one bucket holding the tagged event. |
| Example.ExampleYears | ucdp.py:79-85 | The event dated 1990-05-10 to 1990-05-10 records just the year 1990. |
| Example.ExampleSeparatorDate | ucdp.py:80 | A `date_start` of `"\x1c199-01-01"` raises `ValueError`, because `int()` does not skip the separator `\x1c`. |
| Example.ExamplePass | ucdp.py:79-90 | The pass over the country's single event collects just 1990 and keeps the event's `country_id`, `771`. |
| Example.ExamplePublication | ucdp.py:53-103 | The Bangladesh event yields the dataset `ucdp-data-for-bangladesh` titled `Bangladesh - Conflict Data`, the file `conflict_data_BGD.csv`, and the showcase at `https://ucdp.uu.se/#country/771`. |
| Example.ExampleAliases | ucdp.py:39-46 | Two spellings resolving to one code give two `countries` entries with that code and a single bucket. |

## Left out

- `run.py`: the orchestrator that iterates over countries and publishes to HDX. It is I/O and configuration only.
- `tests/`: not part of this model.
- The download itself (`downloader.get_tabular_rows`). The model takes the header list and rows it yields as inputs.
- `Dataset.generate_resource_from_download`: this library code writes the CSV files, the HXL row, the quick-chart resource and the dataset date range. The model keeps only its pass of `process_year` over the rows (`Years.ProcessRows`). Whether it reports data enters the model as the `success` parameter.
- Publication.GenerateDatasetAndShowcase: assumes that the generator applies `process_year` to every row of `countrydata`, in order and starting from an empty set of years, and lets its exception through. Exceptions of the generator's own, such as I/O errors while writing the file, are not modelled. That behaviour belongs to the library, which is not part of this model.
- The fuzzy country lookup, the ISO3-to-name catalog and `slugify` are external libraries and enter the model as function parameters. The model proves no property of slugification itself.
- Logging, the HDX setters (`set_maintainer`, `add_tags` and so on) and the `folder` and `headers` arguments only pass through to library code. The dataset and showcase records hold the values the setters receive.
- Grouping.CountryName: reads a `country` cell holding an integer as a missing column. The rows of a download hold only text, so that case does not arise.
- Text.ParseInt, Text.FormatInt and Text.Lower cover ASCII only. Python's `int()` also accepts non-ASCII digits and Unicode whitespace, and `str.lower()` folds non-ASCII letters. UCDP dates and English country names are ASCII.
- Rows.Show: proves that a non-negative integer cell reads back through `int()`, but says nothing about how a negative one reads back. The showcase URL's `country_id` arrives as text from the download, and text is shown unchanged (`Publication.ShowcaseUrlCountryId`).
- Headers.AdjustHeaders: is faithful for every header, including the quirk that a header of at most one column gets `start_year` after `end_year`. The layout lemmas only describe headers of at least three columns, which covers the real UCDP header of about fifty columns.
