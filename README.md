# finn-property-scraper, modelled in Dafny

This project models the text-to-record pipeline of the finn.no property scraper:

- recognising listing links on a search-results page;
- walking the result pages until the pager says there are no more, or the page cap is reached;
- dropping repeated listings by their finn code;
- reading every field of a listing's detail page with the normalisers `_clean`, `_to_int`,
  `_to_int_safe` and `_to_float_m2`, the address splitter and the sold-badge check;
- building the record from those fields. As written this construction always fails (see
  "## Findings"); the model shows that failure and then builds the record as evidently
  intended;
- enriching the address with coordinates and then with a neighbourhood;
- flattening the records into the 21-column table the CSV export writes.

Modules, one per source file, plus three for the Python built-ins they rest on:

| module | file | models |
|---|---|---|
| `Wrappers` | wrappers.dfy | `None`, and exceptions as error values |
| `PyStr` | pystr.dfy | `str.strip`, `lower`, `split`, `join`, and `\d` runs over `seq<char>` |
| `PyDict` | pydict.dfy | insertion-ordered `dict`: keys, `get`, item assignment |
| `Metadata` | metadata.dfy | `schemas/realestate_metadata.py` |
| `Schema` | schema.dfy | `schemas/property.py`: the `Address` class, the `Property` record, pydantic validation |
| `PageParser` | page_parser.dfy | `parsers/property_page_parser.py` |
| `CsvExport` | csv_export.dfy | `parsers/csv_exporter.py` |
| `Scraper` | scraper.dfy | `scraper.py` |

`Address` is a class whose methods `ResolveLatLong` and `FindNeighbourhood` write its fields in place.
Loops that build lists become methods with loop invariants, each proved equal to a specification function:
- `AllTexts` and `Status`;
- `FindRealestateMeta`;
- `Crawl`, `Dedup` and `ParseAll`;
- `FlattenProperty` and `FlattenAll`.

Pure helpers stay functions. The lemmas about those functions carry the properties.

The world outside the program is passed in as parameters:

- **Results pages:** `site` is a finite sequence. Page `n` is `site[n - 1]`, and a page past its end does not load.
- **Detail pages:** `pages` maps a listing's url to the texts at each selector, or to None when the page does not open.
- **Encoders:** `urlencode` and `quote` are abstract functions.
- **Geocoding:** `lookup` gives the geocoding response.
- **Geometry:** `contains` is the point-in-polygon test, which may raise (None).

## Model

| member | source | states |
|---|---|---|
| Metadata.SameListingIsEquivalence | finn_property_scraper/schemas/realestate_metadata.py:9-10 | equality by finn code is reflexive, symmetric and transitive, as `set` needs |
| Metadata.SameListingIgnoresUrlAndCategory | finn_property_scraper/schemas/realestate_metadata.py:9-10 | two references are the same listing exactly when their finn codes agree; url and category play no part |
| Metadata.EqualListingsHashEqually | finn_property_scraper/schemas/realestate_metadata.py:9-13 | equal references hash equally, whatever the string hash is |
| PyStr.LStrip | finn_property_scraper/parsers/property_page_parser.py:19 | the result is a suffix of the input that does not start with whitespace |
| PyStr.LStripDropsSpace | finn_property_scraper/parsers/property_page_parser.py:19 | what `lstrip` drops is whitespace |
| PyStr.RStrip | finn_property_scraper/parsers/property_page_parser.py:19 | the result is a prefix of the input that does not end with whitespace |
| PyStr.RStripDropsSpace | finn_property_scraper/parsers/property_page_parser.py:19 | what `rstrip` drops is whitespace |
| PyStr.StripShape | finn_property_scraper/parsers/property_page_parser.py:19 | `strip` gives the middle of the text, between a whitespace prefix and a whitespace suffix |
| PyStr.StripIsStripped | finn_property_scraper/parsers/property_page_parser.py:19 | the stripped text neither starts nor ends with whitespace |
| PyStr.StripEmpty | finn_property_scraper/parsers/property_page_parser.py:19-20 | the stripped text is empty exactly when the input is all whitespace |
| PyStr.StripIdempotent | finn_property_scraper/parsers/property_page_parser.py:19 | stripping twice is stripping once |
| PyStr.StripPadded | finn_property_scraper/parsers/property_page_parser.py:107 | `strip` undoes whitespace padding around a stripped non-empty text |
| PyStr.Digits | finn_property_scraper/parsers/property_page_parser.py:25 | `re.sub(r"[^\d]", "", s)` keeps only digits, never grows, and is empty exactly when there is no digit |
| PyStr.DigitsAppend | finn_property_scraper/parsers/property_page_parser.py:25 | digit extraction distributes over concatenation |
| PyStr.ShowNat | finn_property_scraper/scraper.py:99 | `str(n)` is a non-empty digit string |
| PyStr.ValueOfShowNat | finn_property_scraper/parsers/property_page_parser.py:29 | `int(str(n)) == n` |
| PyStr.FromFirstDigit | finn_property_scraper/parsers/property_page_parser.py:48 | the suffix from the first digit on, after a digit-free prefix |
| PyStr.LeadingDigits | finn_property_scraper/parsers/property_page_parser.py:48 | the longest digit prefix, as a greedy `\d+` takes it |
| PyStr.FirstDigitRunShape | finn_property_scraper/parsers/property_page_parser.py:48 | the first digit run begins after a digit-free prefix and cannot be extended |
| PyStr.FirstDigitRunExists | finn_property_scraper/parsers/property_page_parser.py:48-49 | a first run exists exactly when the text has a digit |
| PyStr.LeadingLetters | finn_property_scraper/scraper.py:19 | the longest ASCII-letter prefix, as a greedy `[a-zA-Z]+` takes it |
| PyStr.Split | finn_property_scraper/parsers/property_page_parser.py:92 | `split` gives at least one part and no part holds the separator |
| PyStr.JoinSplit | finn_property_scraper/parsers/property_page_parser.py:92 | joining the parts with the separator gives back the text |
| PyStr.SplitAfterSeparator | finn_property_scraper/parsers/property_page_parser.py:92 | the first part is everything before the first separator |
| PyStr.AsciiLower | finn_property_scraper/parsers/property_page_parser.py:107 | `lower` keeps the length |
| PyStr.AsciiLowerAt | finn_property_scraper/parsers/property_page_parser.py:107 | `lower` works character by character |
| PyDict.Get | finn_property_scraper/scraper.py:98-99 | `get` finds nothing exactly when the key is absent |
| PyDict.Set | finn_property_scraper/scraper.py:99 | an existing key keeps its place, a new one goes last, the key now maps to the value, and no other key changes |
| PyDict.SetNewKey | finn_property_scraper/scraper.py:99 | assigning a new key appends the pair |
| Schema.AcceptedPointIgnoresLaterHits | finn_property_scraper/schemas/property.py:56-57 | only the first hit of `adresser` is looked at |
| Schema.AcceptedPointNeedsBothCoordinates | finn_property_scraper/schemas/property.py:54-65 | coordinates are taken exactly from a 200 response whose first hit has both lat and lon |
| Schema.AcceptedPoint | finn_property_scraper/schemas/property.py:54-65 | coordinates are taken only from a 200 response with at least one hit |
| Schema.SearchStringEmpty | finn_property_scraper/schemas/property.py:36-47 | the search parts are empty exactly when no member is present; otherwise the search string is non-empty |
| Schema.SearchStringOfAll | finn_property_scraper/schemas/property.py:36-47 | line, postal code and city are joined by single spaces in that order |
| Schema.SearchStringSkipsEmpty | finn_property_scraper/schemas/property.py:37-47 | an empty member is left out without doubling a space |
| Schema.SearchStringOfOne | finn_property_scraper/schemas/property.py:36-47 | a lone member is the whole search string |
| Schema.SearchParts | finn_property_scraper/schemas/property.py:36-47 | at most three parts, none empty; the line comes first and the city last when present |
| Schema.NoAssignmentKeepsNeighbourhood | finn_property_scraper/schemas/property.py:84-92 | when no feature contains the point, the neighbourhood keeps its old value |
| Schema.LastAssignmentWins | finn_property_scraper/schemas/property.py:84-92 | the neighbourhood is the label of the last feature that contains the point, even a missing label |
| Schema.NeighbourhoodAfter | finn_property_scraper/schemas/property.py:84-92 | the loop leaves the neighbourhood it started with, or the label some feature assigned |
| Schema.Address.constructor | finn_property_scraper/schemas/property.py:14-31 | the three given fields are set; lat, lon and neighbourhood default to None |
| Schema.Address.ResolveLatLong | finn_property_scraper/schemas/property.py:33-65 | no search parts: returns None and sends nothing. Otherwise it returns what the response offers for the joined parts, and writes lat and lon together exactly when it returns a point. On failure the coordinates are unchanged. The address invariant holds throughout |
| Schema.Address.FindNeighbourhood | finn_property_scraper/schemas/property.py:67-94 | nothing changes when lat or lon is falsy. Otherwise the neighbourhood becomes what the feature loop leaves, testing the point (lon, lat). Only `neighbourhood` is written |
| Schema.MissingAmong | finn_property_scraper/schemas/property.py:96-194 | the missing fields are exactly the declared fields with no default that were not passed |
| Schema.ValidateProperty | finn_property_scraper/schemas/property.py:96-194 | a validated record is the candidate; a failure names at least one field |
| Schema.ValidationNeedsEveryRequiredField | finn_property_scraper/schemas/property.py:96-194 | validation succeeds exactly when every field without a default was passed; a failure lists the missing ones |
| PageParser.Clean | finn_property_scraper/parsers/property_page_parser.py:16-20 | None exactly for an absent or all-whitespace text; otherwise the text with its surrounding whitespace stripped, which is non-empty |
| PageParser.CleanIdempotent | finn_property_scraper/parsers/property_page_parser.py:16-20 | cleaning twice is cleaning once |
| PageParser.ToInt | finn_property_scraper/parsers/property_page_parser.py:22-31 | None exactly when the text is absent, has no digit, or has more digits than `int()` accepts; otherwise the number all its digits spell together, leading zeros included ("0575" gives 575) |
| PageParser.ToIntIgnoresNonDigits | finn_property_scraper/parsers/property_page_parser.py:22-31 | a non-digit such as a thousands separator can be removed without changing the number |
| PageParser.ToIntReadsShowNat | finn_property_scraper/parsers/property_page_parser.py:22-31 | `_to_int(str(n)) == n` within the digit limit |
| PageParser.ToIntSafe | finn_property_scraper/parsers/property_page_parser.py:45-49 | it raises exactly when the first digit run is longer than `int()`'s 4300-digit limit, and then with that error; no number exactly when the text is absent or has no digit; otherwise the value of the first digit run |
| PageParser.ToIntSafeAtMostToInt | finn_property_scraper/parsers/property_page_parser.py:22-49 | the first run never exceeds the number all digits spell ("3 av 4": 3 against 34) |
| PageParser.ToIntSafeReadsLeadingNumber | finn_property_scraper/parsers/property_page_parser.py:45-49 | the first number in a text is what it reads as, after any digit-free prefix and before any non-digit ("ca. 120" gives 120, "3 av 4" gives 3) |
| PageParser.FloatChars | finn_property_scraper/parsers/property_page_parser.py:36 | after the filter and the comma replacement, only digits, '.' and '-' remain |
| PageParser.FloatCharsKeepsDigits | finn_property_scraper/parsers/property_page_parser.py:36 | the filter loses no digit and adds none |
| PageParser.DecimalAtIsLongest | finn_property_scraper/parsers/property_page_parser.py:37 | the match covers a prefix, and neither its whole part nor its fraction could be longer |
| PageParser.DecimalMatchShape | finn_property_scraper/parsers/property_page_parser.py:37-39 | a match exists exactly when the text has a digit; its whole part is a digit run |
| PageParser.ToFloatM2 | finn_property_scraper/parsers/property_page_parser.py:33-43 | None exactly when the text is absent or digit-free; otherwise the longest `\d+(?:\.\d+)?` match at the first digit of the filtered text, with no sign |
| PageParser.ToFloatM2ReadsDecimal | finn_property_scraper/parsers/property_page_parser.py:33-43 | "45,5 m²" and "45.5 m²" read as whole part 45 and fraction 5 |
| PageParser.ToFloatM2ReadsWholeNumber | finn_property_scraper/parsers/property_page_parser.py:33-43 | "120 m²" reads as whole part 120 and no fraction |
| PageParser.PostalCityAt | finn_property_scraper/parsers/property_page_parser.py:95 | a match at a position captures four digits |
| PageParser.SearchPostalCity | finn_property_scraper/parsers/property_page_parser.py:95 | a found postal code is four digits |
| PageParser.PostalCityAtStripped | finn_property_scraper/parsers/property_page_parser.py:95 | on a stripped text, a position matches exactly when four digits and whitespace start there with text after them |
| PageParser.SearchFindsLeftmost | finn_property_scraper/parsers/property_page_parser.py:95 | the search returns the leftmost match |
| PageParser.SearchFindsNothing | finn_property_scraper/parsers/property_page_parser.py:95 | the search finds nothing exactly when no position matches |
| PageParser.StrippedParts | finn_property_scraper/parsers/property_page_parser.py:92 | one stripped part per comma-separated part |
| PageParser.SplitAddress | finn_property_scraper/parsers/property_page_parser.py:89-101 | postal code and city are both present or both absent; a postal code is four digits |
| PageParser.SplitAddressAbsent | finn_property_scraper/parsers/property_page_parser.py:89-91 | an absent or empty address gives three Nones |
| PageParser.SplitAddressOnePart | finn_property_scraper/parsers/property_page_parser.py:93-98 | a comma-free text gives either a postal code and city with no line, or the stripped text as line alone, depending on whether the search matches |
| PageParser.SplitAddressTwoParts | finn_property_scraper/parsers/property_page_parser.py:99-101 | with a comma, the line is the stripped first part; postal code and city are present exactly when the second part matches, and are then the captured code and the stripped captured city |
| PageParser.SplitAddressIgnoresLaterParts | finn_property_scraper/parsers/property_page_parser.py:99-101 | parts after the second are ignored |
| PageParser.SplitAddressReadsTwoParts | finn_property_scraper/parsers/property_page_parser.py:92-101 | two texts that agree on their first two parts split alike |
| PageParser.SplitAddressOfTwoParts | finn_property_scraper/parsers/property_page_parser.py:92-101 | an address of two parts whose second part matches gives the stripped first part, the captured postal code and the stripped city |
| PageParser.SplitAddressStreetPostalCity | finn_property_scraper/parsers/property_page_parser.py:89-101 | "street, 0575 Oslo" gives the stripped street, the postal code and the city |
| PageParser.SplitAddressPostalCityOnly | finn_property_scraper/parsers/property_page_parser.py:93-97 | a comma-free "0575 Oslo" gives no line, the postal code and the city |
| PageParser.Kept | finn_property_scraper/parsers/property_page_parser.py:84-86 | nothing for an absent or blank text; otherwise exactly the element's text with its surrounding whitespace stripped |
| PageParser.CleanedTexts | finn_property_scraper/parsers/property_page_parser.py:74-87 | never more texts than elements |
| PageParser.CleanedTextsStripped | finn_property_scraper/parsers/property_page_parser.py:84-86 | every kept text is non-empty and stripped |
| PageParser.CleanedTextsAppend | finn_property_scraper/parsers/property_page_parser.py:75-87 | DOM order is kept: collecting distributes over concatenation |
| PageParser.CleanedTextsEmpty | finn_property_scraper/parsers/property_page_parser.py:74-87 | nothing is kept exactly when every element's text is absent or blank |
| PageParser.AllTexts | finn_property_scraper/parsers/property_page_parser.py:74-87 | the loop builds exactly the cleaned texts in order |
| PageParser.Status | finn_property_scraper/parsers/property_page_parser.py:103-109 | "sold" exactly when some text trims and lower-cases to "solgt", otherwise "active"; never anything else |
| PageParser.SoldMarkerIgnoresCaseAndPadding | finn_property_scraper/parsers/property_page_parser.py:107 | the marker is recognised in any case, with any whitespace around it |
| PageParser.SoldMarkerIsWholeText | finn_property_scraper/parsers/property_page_parser.py:107 | anything that is not five characters once trimmed is not the marker |
| PageParser.EnrichedAddressInvariant | finn_property_scraper/parsers/property_page_parser.py:128-134 | a neighbourhood only with two non-zero coordinates and a feature collection; both or neither coordinate; coordinates only when there was something to search for; the split parts untouched |
| PageParser.BuildAddress | finn_property_scraper/parsers/property_page_parser.py:131-134 | building, geocoding and locating an `Address` gives the enriched address value |
| PageParser.PropertyOfShape | finn_property_scraper/parsers/property_page_parser.py:162-192 | status is "sold" or "active"; an empty facilities list becomes None, otherwise its texts are cleaned; finn code and url are absent only when blank; the enriched address is attached |
| PageParser.ConstructionAsWrittenFails | finn_property_scraper/parsers/property_page_parser.py:165-192 | the call as written fails validation, naming `raw_meta` alone |
| PageParser.MissingAsWritten | finn_property_scraper/parsers/property_page_parser.py:165-192 | `raw_meta` is the only field the call leaves without a value |
| PageParser.FieldsAsWritten | finn_property_scraper/parsers/property_page_parser.py:165-192 | the call passes every declared field up to `status`, in declaration order |
| PageParser.MissingNoneCorrected | finn_property_scraper/schemas/property.py:190-193 | with `raw_meta` passed as well, no field is missing |
| PageParser.ConstructProperty | finn_property_scraper/parsers/property_page_parser.py:165-192 | the corrected construction accepts the record unchanged |
| PageParser.PageOutcome | finn_property_scraper/parsers/property_page_parser.py:113-193 | a record exactly when the page opens and every count fits `int()`; a failure names a page that did not open exactly when it did not; a record has status "sold" or "active", an address and no `raw_meta` |
| PageParser.ParsePropertyPage | finn_property_scraper/parsers/property_page_parser.py:113-193 | a page that does not open fails; a count past `int()`'s digit limit fails; otherwise, with `Property(...)` built as evidently intended, it yields the record of every field read independently, with the enriched address |
| CsvExport.CategoricalRanks | finn_property_scraper/parsers/csv_exporter.py:9-15 | the categorical columns take places 2 to 6 in their listed order |
| CsvExport.NumericRanks | finn_property_scraper/parsers/csv_exporter.py:18-33 | the numeric columns take places 7 to 20 in their listed order |
| CsvExport.ExportColOrderRanks | finn_property_scraper/parsers/csv_exporter.py:36-39 | the export order has 21 columns: address, neighbourhood, categorical, numeric |
| CsvExport.ExportColOrderDistinct | finn_property_scraper/parsers/csv_exporter.py:9-39 | the 21 columns are distinct |
| CsvExport.RowOver | finn_property_scraper/parsers/csv_exporter.py:54-65 | one entry per column, in order, each holding the record's value for it |
| CsvExport.RowOverKeys | finn_property_scraper/parsers/csv_exporter.py:54-65 | a row's keys are its columns |
| CsvExport.RowOverLookup | finn_property_scraper/parsers/csv_exporter.py:54-65 | over distinct columns, a row gives each column the record's value and has nothing else |
| CsvExport.FlattenedRowShape | finn_property_scraper/parsers/csv_exporter.py:44-67 | the row has exactly the 21 export keys in export order. `address` is the address line and `neighbourhood` the neighbourhood, both None without an address. Every other column holds the same-named field |
| CsvExport.AddNext | finn_property_scraper/parsers/csv_exporter.py:60-65 | assigning the next column extends the row by that column |
| CsvExport.FlattenProperty | finn_property_scraper/parsers/csv_exporter.py:44-67 | the two loops build exactly the flattened row |
| CsvExport.NewColumns | finn_property_scraper/parsers/csv_exporter.py:76 | exactly the columns of the new row not seen before |
| CsvExport.NewColumnsDistinct | finn_property_scraper/parsers/csv_exporter.py:76 | picking new columns from a list without repeats adds no repeat |
| CsvExport.ColumnsOf | finn_property_scraper/parsers/csv_exporter.py:76 | the frame's columns are exactly the keys of the rows: each column is a key of some row and each key of each row is a column |
| CsvExport.ColumnsOfDistinct | finn_property_scraper/parsers/csv_exporter.py:76 | no column is named twice when no row repeats a key |
| CsvExport.AddEmptyColumnShows | finn_property_scraper/parsers/csv_exporter.py:79-81 | a column added to an empty frame goes last and the frame still shows no records |
| CsvExport.SelectShows | finn_property_scraper/parsers/csv_exporter.py:82 | selecting columns keeps the frame showing the same records |
| CsvExport.FromRecordsShows | finn_property_scraper/parsers/csv_exporter.py:75-76 | the frame of the flattened rows shows the records, with the export columns when there is any |
| CsvExport.ColumnsOfUniform | finn_property_scraper/parsers/csv_exporter.py:76 | rows with the same keys give a frame with those columns |
| CsvExport.FlattenAll | finn_property_scraper/parsers/csv_exporter.py:75 | one flattened row per record, in order |
| CsvExport.PropertiesToDataFrame | finn_property_scraper/parsers/csv_exporter.py:70-91 | the frame's columns are exactly the export order, even for no records, and it has one row per record in input order, each cell the record's value |
| Scraper.GenerateBaseUrlKeepsBase | finn_property_scraper/scraper.py:21-36 | every search URL starts with `FINN_BASE_URL` |
| Scraper.GenerateBaseUrlEmpty | finn_property_scraper/scraper.py:21-36 | the URL is the bare base URL exactly when there are no filters; otherwise an ampersand and the encoded filters follow the base |
| Scraper.PageFiltersShape | finn_property_scraper/scraper.py:98-99 | a page's filters hold the page number under `page` and the caller's value under every other key; they are never empty |
| Scraper.PageUrlCarriesFilters | finn_property_scraper/scraper.py:98-101 | a page URL is the base URL, an ampersand and the encoded page filters |
| Scraper.MatchPath | finn_property_scraper/scraper.py:19 | a captured category is one or more ASCII letters and a captured code one or more digits |
| Scraper.MatchListing | finn_property_scraper/scraper.py:19 | a match has a non-empty letter category and digit code, and the href starts with `/realestate/`, alone or after the origin |
| Scraper.MatchListingSound | finn_property_scraper/scraper.py:19 | a match is a listing href with the captured category and code |
| Scraper.MatchPathSound | finn_property_scraper/scraper.py:19 | a matched path is `/realestate/`, letters, `/ad.html?finnkode=`, digits, and nothing more |
| Scraper.MatchListingComplete | finn_property_scraper/scraper.py:19 | every listing href, with or without the origin, matches with its own category and code |
| Scraper.MatchPathComplete | finn_property_scraper/scraper.py:19 | every listing path matches with its own category and code |
| Scraper.LettersStopAt | finn_property_scraper/scraper.py:19 | the greedy letter run stops at the first non-letter |
| Scraper.MetaOfShape | finn_property_scraper/scraper.py:52-58 | a record is emitted exactly for a matching href; its url is the origin followed by the raw href, and its category and finn code are the captured groups |
| Scraper.ListingsOf | finn_property_scraper/scraper.py:48-62 | never more records than anchors |
| Scraper.ListingsOfSound | finn_property_scraper/scraper.py:48-62 | every record comes from a listing href of the page |
| Scraper.ListingsOfComplete | finn_property_scraper/scraper.py:48-62 | every listing href gives its record |
| Scraper.FindRealestateMeta | finn_property_scraper/scraper.py:43-62 | the loop emits the records of the listing hrefs in DOM order, skipping the rest |
| Scraper.Max | finn_property_scraper/scraper.py:73 | the maximum is one of the numbers and at least each of them |
| Scraper.HasMorePages | finn_property_scraper/scraper.py:65-77 | it raises exactly when there are no page links |
| Scraper.HasMorePagesMeaning | finn_property_scraper/scraper.py:73-77 | more pages exactly when some listed page is at least the current one |
| Scraper.CurrentListedMeansMore | finn_property_scraper/scraper.py:73-77 | whenever the current page is listed, the check says there are more |
| Scraper.CrawlCollects | finn_property_scraper/scraper.py:97-119 | the crawl keeps what it had and adds the records of every page it opened, the last included, in page order |
| Scraper.CrawlStopsAtLast | finn_property_scraper/scraper.py:97-116 | pages are opened consecutively: the crawl goes on past every page before the last and stops at the last |
| Scraper.CrawlRespectsCap | finn_property_scraper/scraper.py:114-115 | with a positive cap no page past it is opened |
| Scraper.ZeroCapIsNoCap | finn_property_scraper/scraper.py:114 | a cap of 0 behaves as no cap |
| Scraper.CrawlFrom | finn_property_scraper/scraper.py:97-116 | the crawl never goes back before the page it starts at and keeps what was collected before it |
| Scraper.CrawlStep | finn_property_scraper/scraper.py:106-116 | one step of the crawl, as the loop body takes it: the page's records are added, then the crawl either stops there or continues from the next page; the step the loop proof of Crawl uses |
| Scraper.PageUrls | finn_property_scraper/scraper.py:97-101 | one URL per opened page |
| Scraper.PageUrlsIndex | finn_property_scraper/scraper.py:97-101 | the k-th URL is page k + 1's |
| Scraper.PageUrlsAt | finn_property_scraper/scraper.py:97-101 | the k-th URL is the base URL with the caller's filters and `page` set to k + 1 |
| Scraper.VisitPage | finn_property_scraper/scraper.py:104-116 | a page gives its listings, or none when it does not load, and the crawl stops there exactly when the stop rule says so |
| Scraper.Crawl | finn_property_scraper/scraper.py:89-119 | the loop ends with the records and last page of the crawl, and opens the URL of each page from 1 to the last, in order |
| Scraper.FirstOccurrences | finn_property_scraper/scraper.py:124 | never more records than collected, and the same finn codes |
| Scraper.FirstOccurrencesFromInput | finn_property_scraper/scraper.py:124 | every kept record is a collected one |
| Scraper.FirstOccurrencesUnique | finn_property_scraper/scraper.py:124 | no two kept records are the same listing |
| Scraper.Dedup | finn_property_scraper/scraper.py:124 | the loop keeps the first record of each finn code |
| Scraper.ParsedOf | finn_property_scraper/scraper.py:127-135 | never more records than listings, and each is the successful parse of one of them |
| Scraper.ParsedOfAllSucceed | finn_property_scraper/scraper.py:127-135 | when every listing parses, the k-th record is the k-th listing's: none is lost and the order is kept |
| Scraper.ParsedOfComplete | finn_property_scraper/scraper.py:127-135 | every listing that parses contributes its record |
| Scraper.ParseAll | finn_property_scraper/scraper.py:127-135 | the loop keeps the successful parses in order and skips failures |
| Scraper.Scrape | finn_property_scraper/scraper.py:85-137 | the parsed records (built as evidently intended) are those of the deduplicated crawl, in order, and the exported table has the export columns and one row per parsed record |

## Left out

- The browser (zendriver), the HTTP request of the geocoder, JSON decoding, shapely geometry, `_load_neighbourhoods`, the JSON dump, file writes and `print`. Each is outside the program's own logic. What they deliver is a parameter.
- Selector queries and their timeouts: `_text` and `_all_texts` are reduced to the texts they return. An element whose text raises gives None.
- Float values: lat and lon are `real`. `_to_float_m2` returns the matched digit strings, not a float.
- The pandas dtype coercion (`to_numeric`, `category`) and `to_csv` are not modelled. The table holds the values before coercion: integers, and the area digit strings. `to_numeric` turns them into floats, which can lose precision above 2^53.
- `scraped_at`: its default reads the clock.
- The iteration order of `list(set(...))`: the model keeps the first record of each finn code in first-seen order. Python's set order is unspecified.
- Scraper.HasMorePages: it is modelled as written (`max(pages) >= current`). That is also true on the last page when it is listed. The stop on the last page then comes from a later page failing to load or from the cap. A reading where the check compares strictly is not followed.
- Scraper.Crawl: the site is finite. A page past the end of `site` does not load, so the model covers only crawls that end. A non-numeric pager text (`int()` raising) is folded into a pager that could not be read.
- Unicode digits are not modelled: `\d` is read as the ASCII digits only. This applies to `_to_int`, `_to_int_safe`, `_to_float_m2` and the postal code's `\d{4}` (PageParser.ToInt, PageParser.ToIntSafe, PageParser.ToFloatM2, PageParser.SearchPostalCity).
- Scraper.MatchListing: `$` in `REALESTATE_PATTERN` also matches just before a trailing newline, so Python accepts `/realestate/homes/ad.html?finnkode=123` followed by a newline, with code "123". Scraper.MatchPath and Scraper.MatchListing reject such an href; the model requires the code to end the text.
- PyStr.AsciiLower: lower-casing covers ASCII capitals only. That is exact for comparing with "solgt", since no other character lowers to one of its letters.
- PageParser.ParsePropertyPage: it builds the record with the corrected construction (PageParser.ConstructProperty). As written, `Property(...)` rejects every listing, so no page yields a record; that behaviour is PageParser.ConstructionAsWrittenFails (see "## Findings") and is not what this member states.
- Scraper.Scrape: it parses with the corrected construction. As written the program parses no listing and exports a table without rows; the model states the evidently intended run instead.
- PageParser.ParsePropertyPage: a listing is opened by its url, which an absolute href doubles. The detail-page lookup is keyed by that url as emitted.
- The docstring of `status` (finn_property_scraper/schemas/property.py:187-188) also lists "ended". The parser never produces it, and the model follows the parser: "sold" or "active".

## Findings

| source | as written | input that shows it | evidently intended | confidence | as-written member | corrected member |
|---|---|---|---|---|---|---|
| finn_property_scraper/schemas/property.py:193 | `raw_meta: dict \| None` has no default, so pydantic requires it; `parse_property_page` (finn_property_scraper/parsers/property_page_parser.py:165-192) never passes it, so every construction raises a validation error and no listing is ever parsed | any listing whose page loads | `raw_meta` defaults to None, so the record is built from the fields read | not executed | PageParser.ConstructionAsWrittenFails | PageParser.ConstructProperty |
