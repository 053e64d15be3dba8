# ajarent post-collector in Dafny

This project models the core of `post-collector/main.go`, the collector that
copies apartment-rent listings from a classifieds site into a database. It
proves properties of that model. The collector works in two passes:

- **Collecting listings** (`saveLatestPosts`, `savePostToDB`). Pages of
  search results are requested one after another until a request fails or
  a page comes back empty. Every listing on a page is stored under its token
  unless its title marks it as a flatmate or dormitory offer.
- **Enriching listings** (`savePostDetails`). For every stored listing
  without a detail row, the detail document is requested and a
  `PostDetail` row is built from its `LIST_DATA` section:
  - monthly rent and deposit come from the price widgets, or from the
    `RENT_SLIDER` widget when both are still 0;
  - elevator, parking and storeroom flags come from `GROUP_FEATURE_ROW`;
  - floor area, year built and number of rooms come from `GROUP_INFO_ROW`;
  - the region is cut out of the listing's description.

  A document with no sections deletes the listing instead.

Prices and numbers arrive as Persian text: Persian digits, the Arabic
thousands separator `٬` and the unit word `تومان`. They are turned into
ASCII digits and read as exact decimals.

Modules, one per file:

- `Wrappers` (`wrappers.dfy`): `Option` and `Result`.
- `GoText` (`gotext.dfy`): the parts of Go's `strings` and `unicode` that
  the collector calls, over strings of runes. These are `Contains`,
  `LastIndex`, `ReplaceAll` with an empty replacement, `TrimSpace`,
  `IsDigit` (Unicode 15.0 decimal digits) and `IsSpace`.
- `GoNumbers` (`gonumbers.dfy`): `strconv.Atoi` on a 64-bit platform and
  `decimal.NewFromString`, as grammars. Decimals are Dafny `real`, so they
  are exact.
- `Normalize` (`normalize.dfy`): `convertPersianToEnglishDigits` (a method
  with its loop, proved against a function),
  `parsePersianNumberToDecimal` and `trimAfterLastPattern`.
- `Models` (`models.dfy`): the records of `models/model.go`. A pointer that
  may be nil is an `Option`.
- `Collector` (`collector.dfy`): the title filter and upsert of
  `savePostToDB`, and the page loop of `saveLatestPosts` against a page
  oracle.
- `Details` (`details.dfy`): the extraction of `savePostDetails` as folds,
  with their properties. The properties include last write wins for every
  field, and exactly when extraction fails and with which error.
- `Extraction` (`extraction.dfy`): the same extraction as methods with the
  Go loops, each proved to compute the fold of `Details`.
- `Enrich` (`enrich.dfy`): the loop over the listings without details,
  against a document oracle, with the `posts` and `post_details` tables as
  maps.

Some behaviour is modelled as written even though it may look surprising:

- A monthly rent of `توافقی` ("negotiable") sets the deposit, not the rent,
  to -1 (main.go:243-244). That -1 then stops the `RENT_SLIDER` fallback,
  which only fires when both prices are exactly 0 (`Details.NegotiableBlocksSlider`).
- Slider amounts are read with `decimal.NewFromString` directly, without
  digit normalization.

The four nil dereferences of the extraction are errors of the model, not
preconditions:

- a missing `LIST_DATA` section;
- a missing `GROUP_FEATURE_ROW` widget;
- a missing `GROUP_INFO_ROW` widget;
- a missing `RENT_SLIDER` widget.

For the first three, the Go program panics and the model returns
`Details.ExtractError.MissingListData`, `MissingFeatureRow` or
`MissingInfoRow`. For the fourth, the log message at main.go:333-335 shows
that the authors meant to carry on without a slider. The model's extraction
therefore uses the corrected fallback, and keeps the code as written beside
it (see Findings).

## Model

| member | source | states |
|---|---|---|
| GoText.LastIndex | post-collector/main.go:398 | the result is -1 exactly when the pattern does not occur, which is `strings.Contains` failing; otherwise the pattern occurs there and at no later index |
| GoText.IsDigit | post-collector/main.go:166 | the ASCII digits and the Persian digits are digits |
| GoText.NotDigitInGap | post-collector/main.go:166 | runes below '0' and runes in the gaps of the digit table around the Arabic digits and the Unicode spaces are not digits |
| GoText.RemoveAll | post-collector/main.go:174-176 | removing every occurrence of a non-empty pattern never lengthens the text; what the removal means for the price read is stated by `Normalize.NormalizeRemoveAll` |
| GoText.TrimSpace | post-collector/main.go:178 | the result is no longer than the input and neither starts nor ends with white space |
| GoText.TrimSpaceSlice | post-collector/main.go:178 | the result is the slice of the input between two runs of white space: everything dropped before and after it is white space |
| GoText.TrimLeftSpace | post-collector/main.go:178 | the result is a suffix of the input and does not start with white space |
| GoText.TrimLeftDropsSpace | post-collector/main.go:178 | everything `TrimLeftSpace` drops is white space |
| GoText.TrimRightSpace | post-collector/main.go:178 | the result is a prefix of the input and does not end with white space |
| GoText.TrimRightDropsSpace | post-collector/main.go:178 | everything `TrimRightSpace` drops is white space |
| GoNumbers.Atoi | post-collector/main.go:309 | succeeds exactly when the text is an optional sign and ASCII digits whose value lies in the 64-bit range, and then yields that signed value |
| GoNumbers.ScaleInverse | post-collector/main.go:182 | the value of digits with `k` of them after the point, multiplied by ten to the `k`, gives back the integer the digits spell |
| GoNumbers.ParseDecimalOneDot | post-collector/main.go:182 | text with one dot reads as the signed digits around it, taken together, divided by ten to the number of digits after the dot, and fails when those digits do not read |
| GoNumbers.ParseDecimalFraction | post-collector/main.go:182 | "12.5" reads as 12.5 |
| GoNumbers.ParseDecimalDots | post-collector/main.go:182 | a decimal that reads has at most one dot and at least one other rune |
| GoNumbers.ParseDecimalRunes | post-collector/main.go:182 | a decimal that reads holds only ASCII digits, dots and signs |
| GoNumbers.ParseDecimalOfDigitsAndDots | post-collector/main.go:182 | on text of ASCII digits and dots only, reading a decimal succeeds exactly when there is at most one dot and at least one digit, and the value is never negative |
| GoNumbers.ParseDigitsOnly | post-collector/main.go:182 | a non-empty string of ASCII digits reads as its value as a decimal and, within range, as an integer |
| GoNumbers.ParseShowNat | post-collector/main.go:182 | printing a natural number and reading it back gives the number, as a decimal and within range through `Atoi` |
| Normalize.ConvertPersianToEnglishDigits | post-collector/main.go:161-171 | the rune loop computes `NormalizeDigits`: each Persian digit becomes the ASCII digit of the same value, other digits and '.' stay, and every other rune is dropped |
| Normalize.NormalizeConcat | post-collector/main.go:163-169 | normalizing a concatenation is concatenating the normalized parts |
| Normalize.NormalizeDigitsOutput | post-collector/main.go:161-171 | the output holds only non-Persian digits and dots and is never longer than the input |
| Normalize.NormalizeNormal | post-collector/main.go:166-168 | text that already holds only non-Persian digits and dots is left unchanged |
| Normalize.NormalizeIdempotent | post-collector/main.go:161-171 | normalizing twice equals normalizing once |
| Normalize.NormalizePersianNumeral | post-collector/main.go:164-165 | a numeral in Persian digits becomes the ASCII numeral with the same digit value at every position |
| Normalize.NormalizeDropsText | post-collector/main.go:163-169 | text with no digit and no dot normalizes to nothing |
| Normalize.NormalizeRemoveAll | post-collector/main.go:174-176 | removing every occurrence of text that normalizes to nothing does not change the normalized result |
| Normalize.NormalizeSpace | post-collector/main.go:178 | a white-space rune normalizes to nothing |
| Normalize.NormalizeTrimLeft | post-collector/main.go:178-180 | dropping leading white space does not change the normalized result |
| Normalize.NormalizeTrimRight | post-collector/main.go:178-180 | dropping trailing white space does not change the normalized result |
| Normalize.NormalizeTrimSpace | post-collector/main.go:178-180 | trimming white space does not change the normalized result |
| Normalize.NormalizeWords | post-collector/main.go:174-176 | Arabic-script letters and the ASCII space normalize to nothing |
| Normalize.UnitTextNormalizesToNothing | post-collector/main.go:174-176 | the thousands separator, `تومان` and `" تومان"` normalize to nothing |
| Normalize.ParsePersianNumberToDecimal | post-collector/main.go:173-188 | succeeds exactly when the digit-normalized input reads as a decimal, with that value; on failure it carries the normalized text |
| Normalize.ParseNormalized | post-collector/main.go:180-182 | normalized text reads as a decimal exactly when it holds only ASCII digits and dots, at most one dot and at least one digit, so a kept digit of another script makes the read fail; the value is never negative |
| Normalize.PriceReadsWhen | post-collector/main.go:173-188 | a price reads exactly when its normalized digits are ASCII digits with at most one dot and at least one digit; a price read is never negative |
| Normalize.SameNormalFormSameParse | post-collector/main.go:173-188 | two prices with the same normalized digits read the same |
| Normalize.ParsesAs | post-collector/main.go:173-188 | a price whose normalized digits read as v reads as v |
| Normalize.ToPersianDigits | post-collector/main.go:164-165 | writing ASCII digits in Persian digits keeps the length and yields only Persian digits |
| Normalize.NormalizeToPersianDigits | post-collector/main.go:164-165 | normalizing a numeral written in Persian digits gives back the ASCII numeral |
| Normalize.PriceRoundTrip | post-collector/main.go:173-188 | any whole number written in Persian digits followed by `" تومان"` reads back as that number |
| Normalize.NormalizePriceText | post-collector/main.go:161-180 | ASCII digits written in Persian digits and followed by `" تومان"` normalize back to the ASCII digits |
| Normalize.NormalizeDropMiddle | post-collector/main.go:174-176 | text that normalizes to nothing can be dropped from the middle |
| Normalize.SeparatorIgnored | post-collector/main.go:174 | inserting a thousands separator anywhere does not change the price read |
| Normalize.OccursInSuffix | post-collector/main.go:402 | an occurrence in a suffix is an occurrence in the whole text at the shifted index |
| Normalize.NothingAfterLastOccurrence | post-collector/main.go:398-402 | the text after the last occurrence of a non-empty pattern does not contain it |
| Normalize.TrimAfterLastPattern | post-collector/main.go:396-403 | the result is a suffix of the input; it is the whole input when the pattern does not occur; otherwise it starts right after the last occurrence of the pattern (no occurrence starts later) and no longer contains it |
| Collector.SavePostToDBSpec | post-collector/main.go:88-110 | a listing whose title contains a flatmate or dormitory phrase leaves the table unchanged; any other listing is upserted under its token with title and the three descriptions copied, and no other row changes |
| Collector.SavePostIdempotent | post-collector/main.go:88-110 | saving the same listing twice equals saving it once |
| Collector.SavesTokenSnoc | post-collector/main.go:75-80 | a token is stored by a page plus one listing exactly when the page stores it or that listing does |
| Collector.SaveWidgetsKey | post-collector/main.go:75-80 | after a page the table holds a token exactly when it held it before or a non-excluded listing of the page has it; other rows keep their values |
| Collector.SaveWidgetsLastWins | post-collector/main.go:75-80 | a token maps to the row of the page's last non-excluded listing with that token |
| Collector.SaveWidgetsSpec | post-collector/main.go:75-80 | the three facts above for every token and listing of a page; so no excluded listing is ever written |
| Collector.ExcludedThenOrdinary | post-collector/main.go:89-102 | a page with an excluded and an ordinary listing stores only the ordinary one |
| Collector.SavePage | post-collector/main.go:75-80 | the loop over one page computes `SaveWidgets` |
| Collector.SaveLatestPosts | post-collector/main.go:60-86 | pages 0, 1, 2, ... are requested in order, and the log of requested page numbers is exactly `PagesUpTo(requests)`; the loop stops at the first failed, nil or empty page without requesting the next; it reports failure exactly when that request failed; the table holds every earlier page saved in order |
| Collector.PagesUpToIndices | post-collector/main.go:61-69 | the log of `n` requests names page `i` at position `i` and holds nothing else, so the page after the stopping one is never requested |
| Details.IndexBy | post-collector/main.go:221-225 | every element's key is in the map, and each key maps to an element that has that key |
| Details.IndexByLastWins | post-collector/main.go:223-224 | a key maps to the last element that has it |
| Details.IndexByKeys | post-collector/main.go:233 | a key is present exactly when some element has it |
| Details.ApplyRentValue | post-collector/main.go:240-252 | free sets the rent to 0, negotiable sets the deposit to -1, anything else sets the rent to the price read; it fails exactly when the price does not read, with the normalized text |
| Details.ApplyDepositValue | post-collector/main.go:254-266 | free sets the deposit to 0, negotiable to -1, anything else to the price read; it fails exactly when the price does not read |
| Details.ApplyPriceWidget | post-collector/main.go:240-266 | a failing widget fails with `InvalidPrice` of its normalized value |
| Details.ApplyPriceWidgets | post-collector/main.go:237-268 | the only error of the price loop is an unreadable price |
| Details.PriceWidgetEffect | post-collector/main.go:240-266 | a widget fails exactly when it is a rent or deposit widget whose value is neither free, negotiable nor a readable price; otherwise it writes what `PriceWrite` says into the two prices and nothing else |
| Details.PriceWidgetsOk | post-collector/main.go:237-268 | the loop succeeds exactly when every widget's price reads, and then changes only the two prices |
| Details.PriceWidgetsFirstError | post-collector/main.go:246-249 | the loop fails with the error of the first widget whose price does not read |
| Details.PriceLastWins | post-collector/main.go:237-268 | each price holds what the last widget writing it wrote, or its old value when none does |
| Details.ApplyFeatureItems | post-collector/main.go:272-288 | the feature loop changes only the elevator, parking and storeroom flags |
| Details.FeatureItemFlag | post-collector/main.go:273-287 | an item sets a flag to its availability exactly when its title contains that flag's keyword |
| Details.FeatureLastWins | post-collector/main.go:272-288 | a flag takes the availability of the last item naming it, and items not naming it leave it unchanged |
| Details.ApplyInfoItem | post-collector/main.go:297-328 | a failing item fails with `InvalidNumber` of its normalized value |
| Details.ReadMeterage | post-collector/main.go:299-306 | an item naming the floor area sets it to the decimal its digits read as, and fails exactly when they do not read |
| Details.ReadYear | post-collector/main.go:308-315 | an item naming the year built sets it to the integer its digits read as, and fails exactly when they do not read |
| Details.ReadRooms | post-collector/main.go:317-328 | an item naming rooms sets them to 0 for "no room", otherwise to the integer its digits read as, and fails exactly when they do not read |
| Details.ApplyInfoItems | post-collector/main.go:292-329 | the only error of the info loop is an unreadable number |
| Details.InfoItemEffect | post-collector/main.go:293-328 | an item fails exactly when a field it names does not read; otherwise it writes what `InfoWrite` says into the three fields and nothing else |
| Details.InfoItemsOk | post-collector/main.go:292-329 | the info loop succeeds exactly when every item reads, and then changes only floor area, year built and rooms |
| Details.InfoItemsFirstError | post-collector/main.go:299-327 | the info loop fails with the error of the first item that does not read |
| Details.InfoLastWins | post-collector/main.go:292-329 | each of the three fields holds what the last item writing it wrote, or its old value when no item names it |
| Details.ApplySliderAmount | post-collector/main.go:337-357 | an absent or empty amount changes nothing; otherwise the price is set to the amount read as a decimal, or the step fails with that text; it fails exactly when a present, non-empty amount does not read, and the other price never changes |
| Details.ApplySlider | post-collector/main.go:337-357 | fails exactly when the credit or the rent amount is present, non-empty and does not read, with the text of the credit if that fails and else of the rent; otherwise the deposit takes the credit and the rent the rent amount where present and non-empty, each keeps its value where not, and nothing else changes |
| Details.ApplyRentSliderAsWritten | post-collector/main.go:331-358 | the row is unchanged unless both prices are 0; it fails with the nil dereference exactly when both are 0 and there is no slider; with both 0 and a slider, it fails exactly when an amount does not read, and otherwise each price takes its amount when that is present and non-empty and keeps its value otherwise |
| Details.ApplyRentSlider | post-collector/main.go:331-358 | as written, except that with no slider the row is kept; it never reports a missing slider and changes only the two prices; with both prices 0 and a slider, each price takes its amount when that is present, non-empty and reads, and keeps its value when the amount is absent or empty |
| Details.RentSliderFinding | post-collector/main.go:331-337 | the two fallbacks differ exactly when both prices are 0 and there is no slider; there the code as written fails and the corrected one keeps the row |
| Details.MissingSliderExample | post-collector/main.go:331-337 | a LIST_DATA with only a feature row and an empty info row is extracted with both prices 0, and the fallback as written then fails |
| Details.NegotiableBlocksSlider | post-collector/main.go:243-244 | a deposit of -1 is never replaced by the slider, in either version |
| Details.SliderFillsZeroPrices | post-collector/main.go:331-357 | with both prices 0 and a slider whose credit and rent read, the prices become those amounts |
| Details.SeedDetail | post-collector/main.go:227-231 | the row starts with the listing's token and title, the region cut after the last "در ", and zero prices |
| Details.ExtractFromWidgets | post-collector/main.go:233-358 | a row keeps the seed's token, title and region; this step never reports a missing LIST_DATA |
| Details.ExtractDetail | post-collector/main.go:220-358 | a row carries the listing's token, title and region; extraction reports a missing LIST_DATA exactly when no section has that name |
| Details.RowsKeepPrices | post-collector/main.go:270-329 | the feature and info loops leave both prices as the price loop left them |
| Details.ExtractFromWidgetsOk | post-collector/main.go:233-358 | a row is made from the widgets exactly when every price reads, the feature and info rows are there, every info item reads, and a consulted slider's amounts read |
| Details.ExtractDetailOk | post-collector/main.go:220-358 | a row is made from a document exactly when it has a LIST_DATA section (the last of that name) whose widgets satisfy the condition above |
| Details.ExtractPriceError | post-collector/main.go:246-249 | when a price does not read, extraction fails with the normalized text of the first such price |
| Details.ExtractMissingRow | post-collector/main.go:270-292 | with every price read, a missing feature row is reported, else a missing info row |
| Details.ExtractInfoError | post-collector/main.go:292-329 | with every price read and both rows there, extraction fails with the normalized text of the first info item that does not read |
| Details.ExtractSliderError | post-collector/main.go:337-357 | with everything else read and the slider consulted, extraction fails with the raw text of the credit if it does not read, else of the rent |
| Extraction.IndexSections | post-collector/main.go:221-225 | the section loop computes `IndexBy` by section name |
| Extraction.ReadListData | post-collector/main.go:235-268 | the widget loop computes the price fold and, when it finishes, the widget index by type |
| Extraction.ReadPriceWidget | post-collector/main.go:240-266 | the body of the widget loop computes `ApplyPriceWidget` |
| Extraction.ReadFeatureRow | post-collector/main.go:272-288 | the feature loop computes `ApplyFeatureItems` |
| Extraction.ReadInfoRow | post-collector/main.go:292-329 | the info loop computes `ApplyInfoItems` |
| Extraction.ReadInfoItem | post-collector/main.go:293-328 | the body of the info loop computes `ApplyInfoItem` |
| Extraction.ReadRentSlider | post-collector/main.go:331-358 | the fallback code computes the corrected `ApplyRentSlider` |
| Extraction.ExtractPostDetail | post-collector/main.go:220-358 | the whole extraction computes `ExtractDetail` |
| Enrich.EnrichOne | post-collector/main.go:197-373 | a failed request aborts; an undecodable body changes nothing; a document with sections succeeds exactly when extraction does, and then writes the extracted row under the listing's token and nothing else, else fails with the extraction error; a document without sections deletes the listing and adds no detail row; rows of other tokens are unchanged, and detail rows stay keyed by their token |
| Enrich.EnrichAll | post-collector/main.go:190-379 | a run without error had no failed request in the backlog; an error names a backlog listing |
| Enrich.EnrichOneStep | post-collector/main.go:197-377 | one listing fails exactly when its request failed or its document has sections that do not extract, and then with that error; the database plays no part in it |
| Enrich.EnrichAllOk | post-collector/main.go:190-379 | a run ends without error exactly when every listing of the backlog is handled without error |
| Enrich.EnrichAllFirstError | post-collector/main.go:190-379 | a run that fails reports the error of the first listing that is not handled without error |
| Enrich.EnrichAllStopsAt | post-collector/main.go:190-379 | a run that fails leaves the database as the listings before the failing one left it |
| Enrich.EnrichAllOthers | post-collector/main.go:190-379 | the listing and detail rows of a token outside the backlog are left as they were |
| Enrich.EnrichAllStores | post-collector/main.go:197-364 | with distinct tokens, a run without error stores for each listing whose document has sections exactly the row extracted from it |
| Enrich.EnrichAllDeletes | post-collector/main.go:365-373 | a run without error deletes every listing of the backlog whose document has no sections |
| Enrich.SavePostDetails | post-collector/main.go:190-379 | the backlog loop computes `EnrichAll`, keeping rows saved before an error |
| Enrich.EnrichAllFrame | post-collector/main.go:197-376 | the loop only deletes listings and only adds detail rows, so nothing becomes pending; listings outside the backlog are untouched |
| Enrich.EnrichAllProgress | post-collector/main.go:360-373 | after a run without error no backlog listing whose document decoded is pending |
| Enrich.EnrichAllCompletes | post-collector/main.go:381-394 | when the backlog holds every pending listing and every document decodes, a run without error leaves nothing pending |

## Left out

- HTTP, request bodies and JSON decoding (`fetchPostList`, `http.Get`, `io.ReadAll`, `json.Unmarshal`, main.go:112-159 and 197-218). These are network I/O. They become the page oracle `Collector.PageFetch` and the document oracle `Enrich.DetailFetch`.
- `getDB`, `.env` loading and `main` (main.go:24-58). This is process setup.
- `time.Sleep`, the 429 message and the missing-slider log line (main.go:82, 206-208, 334, 375). These are timing and logging only.
- Database write errors: `db.Save` and the `DELETE` are total upserts and deletes on maps. The error returns at main.go:104-107, 360-363 and 366-372 are not modelled.
- `fetchPostsWithoutDetail` (main.go:381-394) is a foreign SQL query. The backlog is a parameter. `Enrich.Pending` is the query's condition, and `Enrich.EnrichAllCompletes` takes as a requirement that the backlog lists every pending listing.
- Nil pointers inside slices are not modelled: a nil section, widget or item entry of a decoded document. The slices hold values.
- `detailToSave` is a pointer that Go updates field by field. The model updates a local record value instead. No other reference to it exists, so aliasing is not modelled.
- Collector.SaveLatestPosts: a search that never returns an empty page is not modelled. Go's loop has no bound, so the method takes a ghost page number at which collection stops.
- GoNumbers.ParseDecimal: exponent notation (`1e3`), which `decimal.NewFromString` accepts, is not modelled. Normalized text never contains it; only the raw slider amounts could.
- GoNumbers.ParseDecimal: the decimal's scale (trailing zeros after the point) is not kept. Values are exact `real`.
- Normalize.ParsePersianNumberToDecimal: the zero decimal returned beside the error is not modelled. The only caller returns the error at once.
- Normalize.ConvertPersianToEnglishDigits: strings are sequences of runes, so invalid UTF-8 bytes are not modelled. Go would decode them as U+FFFD, which is dropped anyway.
- GoText.IsDigit is the Unicode 15.0 table that Go 1.21 and later use. Other Go versions have other tables.
- GoNumbers.Atoi assumes a 64-bit `int`.

## Findings

| source | as written | input that shows it | evidently intended | confidence | as-written member | corrected member |
|---|---|---|---|---|---|---|
| post-collector/main.go:331-337 | When both prices are 0 and there is no `RENT_SLIDER` widget, the code logs a message and then reads `rentSliderWidget.Data` through a nil pointer, which panics and stops the whole run | a `LIST_DATA` section holding only a `GROUP_FEATURE_ROW` widget and a `GROUP_INFO_ROW` widget with no items, and no rent, deposit or slider widget | log the missing slider and store the row with both prices 0 | high; not executed | Details.ApplyRentSliderAsWritten, Details.MissingSliderExample | Details.ApplyRentSlider, Details.RentSliderFinding |
