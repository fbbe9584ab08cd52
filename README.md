# Rental directory: a verified model of its data layer

This project models the core of the rental directory demo in Dafny: the listing
store behind the public directory, the usage-metrics store with its filter,
paging and aggregates, the CSV/JSON/PDF exporters, and the pure helpers of the
"List your rental business" form and of the directory home page.

The database is a sequence of rows in storage order. A `findAll`-style query is a
filter, a sort and an offset/limit window over that sequence. The global
validation pipe is modelled as the first step of every store operation: a
request that breaks a DTO rule comes back as `BadRequest` with the offending
property names, and a valid request goes on to the service logic.

Modules, one per concern:

- `Wrappers`: `Option`, `Result`, and the error kinds `BadRequest`, `NotFound` and `QueryFailed`. It also holds JavaScript truthiness of an optional string and the list of violated validation rules.
- `Text`: the JavaScript string operations the core relies on:
  - `trim`, `split` and `join`;
  - ASCII `toLowerCase`/`toUpperCase`;
  - `substring`;
  - case-insensitive containment (ILIKE `%x%`);
  - the decimal rendering of a count and of an amount in hundredths.
- `Collections` and `Sorting`: filter, count, offset/limit window, and an insertion sort under a total preorder. These are the SQL `WHERE`, `COUNT`, `ORDER BY`, `OFFSET` and `LIMIT`.
- `BusinessEntity`, `CreateBusinessDto`, `SearchBusinessDto`: the listing record, its category enum, its column bounds and defaults, and the create, update and search request rules.
- `BusinessQuery`: the pure part of the listing service:
  - the `where` object and query-builder conditions of `findAll`;
  - sorting, paging, and the category and location reports;
  - the stats.
- `BusinessService`: the class `BusinessStore` holding the `businesses` table, with one method per service operation.
- `MetricEntity`, `CreateMetricDto`, `QueryMetricDto`: the metric record (the amount in integer hundredths, as `decimal(10,2)` stores it) and the request rules.
- `MetricsService`: the filter shared by `findAll` and `getStats`, newest-first paging, the aggregates, the export row selection, and the class `MetricsStore`.
- `ExportService`: the CSV document, the JSON envelope as a JSON value, and the PDF table cells.
- `AddBusiness`, `HomePage`: the form and directory-page helpers.

The code differs from one of its own comments. The comment at
`backend/src/business/business.service.ts:27` says the active filter defaults to
true for the public view. The code applies `isActive` only when the request
carries it. The model follows the code: `BusinessQuery.UnconstrainedSearchSelectsAll`
proves that a request without filters returns inactive listings too. The
"active listings only" policy is the home page's initial filter state
(`HomePage.InitialFilters`).

## Model

| member | source | states |
|---|---|---|
| BusinessEntity.CategoryRank | backend/src/business/entities/business.entity.ts:3-13 | every category has a position in the fixed list of nine |
| BusinessEntity.ParseCategory | backend/src/business/entities/business.entity.ts:3-13 | a string is accepted exactly when it is one of the nine stored values, and the category found stores as that string |
| BusinessEntity.CategoryRoundTrip | backend/src/business/entities/business.entity.ts:3-13 | parsing a category's stored value gives the category back |
| BusinessEntity.CategoryValueInjective | backend/src/business/entities/business.entity.ts:3-13 | no two categories share a stored value |
| BusinessQuery.AllCategoriesListedOnce | backend/src/business/entities/business.entity.ts:3-13 | the category list names every category exactly once |
| CreateBusinessDto.CreateRulesMatchValid | backend/src/business/dto/create-business.dto.ts:58-191 | a create body yields no violation exactly when every decorator rule holds (name 2..255, description >= 10, enum category, email/url formats and lengths, address >= 5, city/country 2..100, state <= 100, phone/zip <= 20, latitude in [-90,90], longitude in [-180,180], rating in [0,5], reviewCount >= 0, nested opening hours) |
| CreateBusinessDto.NewBusiness | backend/src/business/entities/business.entity.ts:92-102 | a new listing is active unless the body says false, not featured unless it says true, rating 0 and 0 reviews when left out, with its generated id and both timestamps set to the insert time |
| CreateBusinessDto.ValidCreateFitsColumns | backend/src/business/entities/business.entity.ts:24-105 | a valid body fits every column bound except possibly the 32-bit review count |
| CreateBusinessDto.UpdateRulesMatchValid | backend/src/business/dto/create-business.dto.ts:58-191 | a patch yields no violation exactly when every property it carries obeys its create rule |
| CreateBusinessDto.MergeOverwritesExactlyCarried | backend/src/business/business.service.ts:108-112 | `Object.assign` sets every property the patch carries and leaves every other property as stored |
| CreateBusinessDto.MergeKeepsIdentity | backend/src/business/business.service.ts:108-112 | an update keeps the id and the creation time; the update time moves to the save time exactly when `save` finds a carried column changed: latitude, longitude, rating (decimals read back as strings) or opening hours (a DTO instance against a plain object) whenever carried, any other property when its value differs; otherwise no UPDATE is written |
| CreateBusinessDto.EmptyPatchIsIdentity | backend/src/business/business.service.ts:108-112 | an empty patch leaves the listing as stored, update time included |
| CreateBusinessDto.MergeIdempotent | backend/src/business/business.service.ts:108-112 | sending the same patch again changes no property; the update time stays where the first update left it, unless the patch carries latitude, longitude, rating or opening hours, which move it to the second save |
| SearchBusinessDto.SearchViolations | backend/src/business/dto/search-business.dto.ts:9-55 | a search is rejected exactly when category is not an enum value, or page or limit is below 1; each failing property is named |
| SearchBusinessDto.Resolve | backend/src/business/business.service.ts:22 | defaults page 1, limit 12, sortBy createdAt, sortOrder DESC; every supplied value is used unchanged |
| BusinessQuery.MatchingRows | backend/src/business/business.service.ts:25-72 | the selected rows are exactly the stored rows satisfying every active condition |
| BusinessQuery.UnconstrainedSearchSelectsAll | backend/src/business/business.service.ts:27-30 | without flags and with empty or missing text filters every row matches, inactive ones included |
| BusinessQuery.AllSixFilters | backend/src/business/business.service.ts:28-50 | the six field filters set one by one amount to their conjunction |
| BusinessQuery.CategoryEntry | backend/src/business/business.service.ts:36-38 | the category entry keeps exactly the rows of that category |
| BusinessQuery.AppendEntry | backend/src/business/business.service.ts:25-50 | adding a key to the `where` object adds its condition to the conjunction |
| BusinessQuery.BuildWhere | backend/src/business/business.service.ts:25-50 | the `where` object holds for a row exactly when the defined flags and the truthy category, city, state and country filters hold |
| BusinessQuery.AppendCondition | backend/src/business/business.service.ts:55-64 | each `andWhere` narrows the selection by exactly its condition |
| BusinessQuery.ComposeQuery | backend/src/business/business.service.ts:52-72 | the conditions the loop over the `where` keys and the free-text search add to the query builder hold exactly for the rows the reference filter matches |
| BusinessQuery.ParseSortField | backend/src/business/business.service.ts:76 | a sort column is accepted exactly when it names a column of the listing |
| BusinessQuery.ParseSortOrder | backend/src/business/business.service.ts:76 | ASC and DESC are recognised and nothing else |
| BusinessQuery.KeyLeTotalPreorder | backend/src/business/business.service.ts:75-76 | comparing column values (nulls last) is total and transitive |
| BusinessQuery.OrderingIsTotalPreorder | backend/src/business/business.service.ts:75-76 | ordering by any column in either direction is a total preorder |
| BusinessQuery.SearchPageSound | backend/src/business/business.service.ts:21-88 | every returned listing is stored and matches; at most `limit` come back, sorted; `total` counts all matches; `page` and `limit` are echoed |
| BusinessQuery.SearchPageComplete | backend/src/business/business.service.ts:75-80 | every stored match appears on some page |
| BusinessQuery.PagePastTheEndIsEmpty | backend/src/business/business.service.ts:77-78 | a page whose offset is past the last match is empty |
| BusinessQuery.CategoryGroups | backend/src/business/business.service.ts:133-141 | each group is a category with its count of active listings, never zero, and every category with active listings has its group |
| BusinessQuery.CategoryHistogramSpec | backend/src/business/business.service.ts:133-147 | the category report counts only active listings, lists each category with listings once, in descending count order, and its counts add up to the active total |
| BusinessQuery.CategoryHistogramSum | backend/src/business/business.service.ts:133-141 | the category counts sum to the number of active listings |
| BusinessQuery.ActiveLocations | backend/src/business/business.service.ts:149-157 | the distinct (city, state, country) triples of active listings, each once |
| BusinessQuery.CountEach | backend/src/business/business.service.ts:149-158 | each location is paired with its count of active listings |
| BusinessQuery.LocationHistogramSpec | backend/src/business/business.service.ts:149-168 | at most 50 rows; each a distinct location with its active count, never zero, in descending count order |
| BusinessQuery.LocationLeftOut | backend/src/business/business.service.ts:157-159 | a location with active listings is missing from the report only when there are more than 50 groups and every shown group is at least as large |
| BusinessQuery.StatsIdentities | backend/src/business/business.service.ts:170-183 | inactive = total - active = the number of inactive listings; featured counts active and inactive listings alike and is at most total; the category counts sum to active |
| BusinessService.Lookup | backend/src/business/business.service.ts:90-91 | the row with that id when one is stored, none exactly when no row has it |
| BusinessService.LookupUnique | backend/src/business/entities/business.entity.ts:21-22 | with unique ids the row found is the only one with that id |
| BusinessService.FirstNamed | backend/src/business/business.service.ts:98-101 | the first row in storage order whose name contains the text, ignoring case; none exactly when no name contains it |
| BusinessService.EmptySlugFindsFirstRow | backend/src/business/business.service.ts:98-101 | an empty name finds the first row in storage order |
| BusinessService.ReplaceById | backend/src/business/business.service.ts:111 | saving replaces the row with that id and leaves every other row in place |
| BusinessService.RemoveById | backend/src/business/business.service.ts:115 | deleting keeps exactly the rows with another id |
| BusinessService.AffectedIffPresent | backend/src/business/business.service.ts:114-118 | no row is affected exactly when the id is absent; with unique ids at most one is |
| BusinessService.RemovedIsGone | backend/src/business/business.service.ts:114-118 | after a delete the id is not found |
| BusinessService.RemoveKeepsUnique | backend/src/business/entities/business.entity.ts:21-22 | deleting keeps ids unique |
| BusinessService.ReplaceKeepsUnique | backend/src/business/entities/business.entity.ts:21-22 | saving a row under its own id keeps ids unique and makes it the row found |
| BusinessService.ReplaceKeepsOthers | backend/src/business/business.service.ts:108-131 | saving one row does not change what any other id finds |
| BusinessService.AppendKeepsUnique | backend/src/business/entities/business.entity.ts:21-22 | inserting a row with a fresh id keeps ids unique |
| BusinessService.ToggleActiveFlipsOnlyIsActive | backend/src/business/business.service.ts:121-125 | the toggle negates `isActive` and leaves every other property, the id and the creation time unchanged |
| BusinessService.ToggleFeaturedFlipsOnlyIsFeatured | backend/src/business/business.service.ts:127-131 | the toggle negates `isFeatured` and leaves every other property, the id and the creation time unchanged |
| BusinessService.ToggleActiveInvolution | backend/src/business/business.service.ts:121-125 | toggling twice restores the record, up to the update time |
| BusinessService.ToggleFeaturedInvolution | backend/src/business/business.service.ts:127-131 | toggling twice restores the record, up to the update time |
| BusinessService.TogglesFitColumns | backend/src/business/business.service.ts:121-131 | a toggled row still fits its columns |
| BusinessService.BusinessStore.constructor | backend/src/business/business.service.ts:11-14 | the store starts empty with unique ids |
| BusinessService.BusinessStore.Create | backend/src/business/business.service.ts:16-19 | an invalid body is BadRequest; a taken id or an out-of-range value fails the insert; otherwise the new row, with its defaults, is appended and returned; ids stay unique |
| BusinessService.BusinessStore.FindAll | backend/src/business/business.service.ts:21-88 | the response is the validated, defaulted, sorted page of matches (see SearchPageSound) |
| BusinessService.BusinessStore.FindOne | backend/src/business/business.service.ts:90-96 | NotFound exactly when the id is absent, otherwise the stored row with that id |
| BusinessService.BusinessStore.FindBySlug | backend/src/business/business.service.ts:98-106 | NotFound exactly when no name contains the text, otherwise the first such row |
| BusinessService.BusinessStore.Update | backend/src/business/business.service.ts:108-112 | an invalid patch is BadRequest, an absent id NotFound; otherwise the merged row replaces the stored one and is returned; nothing changes on error |
| BusinessService.BusinessStore.Remove | backend/src/business/business.service.ts:114-119 | NotFound exactly when no row was affected; the row with that id is gone |
| BusinessService.BusinessStore.ToggleActive | backend/src/business/business.service.ts:121-125 | NotFound and no change for an absent id; otherwise the row with `isActive` flipped replaces the stored one |
| BusinessService.BusinessStore.ToggleFeatured | backend/src/business/business.service.ts:127-131 | NotFound and no change for an absent id; otherwise the row with `isFeatured` flipped replaces the stored one |
| BusinessService.BusinessStore.GetCategories | backend/src/business/business.service.ts:133-147 | the category report, whose counts sum to the active listings |
| BusinessService.BusinessStore.GetLocations | backend/src/business/business.service.ts:149-168 | the location report, at most 50 rows |
| BusinessService.BusinessStore.GetStats | backend/src/business/business.service.ts:170-183 | the stats report, with active + inactive = total and featured <= total |
| QueryMetricDto.QueryRulesMatchValid | backend/src/metrics/dto/query-metric.dto.ts:4-32 | a metrics query yields no violation exactly when the dates given are ISO dates and page and limit are at least 1 |
| QueryMetricDto.PageOf | backend/src/metrics/dto/query-metric.dto.ts:21-25 | page defaults to 1 and is at least 1 |
| QueryMetricDto.LimitOf | backend/src/metrics/dto/query-metric.dto.ts:27-31 | limit defaults to 10, is at least 1, and has no upper bound |
| QueryMetricDto.ReversedRangeAccepted | backend/src/metrics/dto/query-metric.dto.ts:13-19 | a start date after the end date passes validation |
| CreateMetricDto.CreateRulesMatchValid | backend/src/metrics/dto/create-metric.dto.ts:3-29 | a metric body yields no violation exactly when name <= 255 (empty allowed), type <= 100, value >= 0, unit <= 50, userId <= 255 and metadata is an object |
| CreateMetricDto.ToHundredths | backend/src/metrics/entities/metric.entity.ts:14-15 | the stored amount is the submitted value rounded to hundredths |
| CreateMetricDto.ToHundredthsExact | backend/src/metrics/entities/metric.entity.ts:14-15 | an amount already in hundredths is stored unchanged |
| CreateMetricDto.ToHundredthsMonotone | backend/src/metrics/entities/metric.entity.ts:14-15 | rounding keeps the order of amounts |
| CreateMetricDto.NewMetric | backend/src/metrics/metrics.service.ts:16-19 | a new metric carries the body's properties, the rounded amount, its generated id, and the insert time as both timestamps |
| CreateMetricDto.ValidCreateFitsColumns | backend/src/metrics/entities/metric.entity.ts:8-24 | a valid body fits its columns exactly when its amount fits decimal(10,2) |
| CreateMetricDto.UpdateRulesMatchValid | backend/src/metrics/dto/create-metric.dto.ts:3-29 | a patch yields no violation exactly when every property it carries obeys its create rule |
| CreateMetricDto.MergeOverwritesExactlyCarried | backend/src/metrics/metrics.service.ts:66-70 | an update sets exactly the supplied properties and keeps the id and creation time; the update time moves to the save time exactly when `save` finds a supplied column changed: the amount (a decimal read back as a string) whenever supplied, any other property when its value differs |
| CreateMetricDto.EmptyPatchIsIdentity | backend/src/metrics/metrics.service.ts:66-70 | an empty patch leaves the metric as stored, update time included |
| CreateMetricDto.MergeIdempotent | backend/src/metrics/metrics.service.ts:66-70 | sending the same patch again changes no property; the update time stays where the first update left it, unless the patch carries an amount, which moves it to the second save |
| CreateMetricDto.UpdateAmount | backend/src/metrics/metrics.service.ts:66-70 | the update reply shows the amount as sent when the patch carries one, and the stored amount otherwise |
| CreateMetricDto.UpdateReplyAgrees | backend/src/metrics/metrics.service.ts:66-70 | the amount an update reply shows rounds to the hundredths the row stores |
| MetricsService.Selected | backend/src/metrics/metrics.service.ts:25-48 | the selected metrics are exactly the stored ones matching type, user and date range |
| MetricsService.BuildWhere | backend/src/metrics/metrics.service.ts:25-41 | the `where` object holds exactly for the metrics of the reference filter: exact type and user when non-empty, Between / MoreThanOrEqual / LessThanOrEqual by which dates are given |
| MetricsService.AppendCondition | backend/src/metrics/metrics.service.ts:84-101 | each `andWhere` narrows the selection by exactly its condition |
| MetricsService.BuildStatsConditions | backend/src/metrics/metrics.service.ts:84-101 | the `andWhere` chain of `getStats` selects exactly the metrics `findAll` selects |
| MetricsService.NewerOrSameIsTotalPreorder | backend/src/metrics/metrics.service.ts:47 | newest-first is a total preorder |
| MetricsService.FindAllSound | backend/src/metrics/metrics.service.ts:21-56 | every returned metric is stored and matches; at most `limit`, newest first; `total` counts all matches; page and limit echoed with defaults 1 and 10 |
| MetricsService.FilterCountsMatches | backend/src/metrics/metrics.service.ts:43 | the total is the number of matching rows |
| MetricsService.FindAllComplete | backend/src/metrics/metrics.service.ts:43-48 | every stored match appears on some page |
| MetricsService.ExportRows | backend/src/metrics/metrics.controller.ts:44 | an export is accepted exactly when the query is valid and writes at most 10000 rows |
| MetricsService.ExportIsFindAllAtExportLimit | backend/src/metrics/metrics.controller.ts:44 | an export's rows are `findAll`'s data for the same query with limit 10000 and the page kept |
| MetricsService.LowestValue | backend/src/metrics/metrics.service.ts:108 | MIN: a stored amount no greater than any selected amount |
| MetricsService.HighestValue | backend/src/metrics/metrics.service.ts:109 | MAX: a stored amount no less than any selected amount |
| MetricsService.TotalBounds | backend/src/metrics/metrics.service.ts:106 | n amounts between lo and hi sum to between n*lo and n*hi |
| MetricsService.AverageBetween | backend/src/metrics/metrics.service.ts:107 | a total between n*lo and n*hi gives an average between lo and hi |
| MetricsService.StatsSummarise | backend/src/metrics/metrics.service.ts:103-119 | count is the number of matches and total their sum; all five figures are 0 on an empty selection; otherwise min <= average <= max and average = total / count |
| MetricsService.StatsAgreeWithFindAll | backend/src/metrics/metrics.service.ts:79-119 | for a valid query the stats count equals `findAll`'s total and the stats total sums the same selection |
| MetricsService.ReversedRangeSelectsNothing | backend/src/metrics/metrics.service.ts:35-36 | a start date after the end date is accepted and selects nothing |
| MetricsService.Lookup | backend/src/metrics/metrics.service.ts:58-59 | the row with that id when one is stored, none exactly when no row has it |
| MetricsService.ReplaceById | backend/src/metrics/metrics.service.ts:69 | saving replaces the row with that id and leaves every other row in place |
| MetricsService.RemoveById | backend/src/metrics/metrics.service.ts:73 | deleting keeps exactly the rows with another id |
| MetricsService.AffectedIffPresent | backend/src/metrics/metrics.service.ts:72-77 | no row is affected exactly when the id is absent |
| MetricsService.FilterKeepsUnique | backend/src/metrics/entities/metric.entity.ts:5-6 | deleting keeps ids unique |
| MetricsService.ReplaceKeepsUnique | backend/src/metrics/entities/metric.entity.ts:5-6 | saving a row under its own id keeps ids unique and makes it the row found |
| MetricsService.LookupFirst | backend/src/metrics/entities/metric.entity.ts:5-6 | with unique ids the row found is the one holding the id |
| MetricsService.AppendKeepsUnique | backend/src/metrics/entities/metric.entity.ts:5-6 | inserting a row with a fresh id keeps ids unique |
| MetricsService.MetricsStore.constructor | backend/src/metrics/metrics.service.ts:11-14 | the store starts empty with unique ids |
| MetricsService.MetricsStore.Create | backend/src/metrics/metrics.service.ts:16-19 | an invalid body is BadRequest; a taken id or an amount beyond decimal(10,2) fails the insert; otherwise the new metric, its amount rounded to hundredths, is appended, and the reply shows the amount as sent |
| MetricsService.MetricsStore.FindAll | backend/src/metrics/metrics.service.ts:21-56 | the response is the validated, defaulted, newest-first page of matches (see FindAllSound) |
| MetricsService.MetricsStore.FindOne | backend/src/metrics/metrics.service.ts:58-64 | NotFound exactly when the id is absent, otherwise the stored metric with that id |
| MetricsService.MetricsStore.Update | backend/src/metrics/metrics.service.ts:66-70 | an invalid patch is BadRequest, an absent id NotFound; otherwise the merged metric replaces the stored one and the reply shows a sent amount as sent; nothing changes on error |
| MetricsService.MetricsStore.Remove | backend/src/metrics/metrics.service.ts:72-77 | NotFound exactly when no row was affected; the row with that id is gone |
| MetricsService.MetricsStore.GetStats | backend/src/metrics/metrics.service.ts:79-120 | the five aggregates over the metrics the same filter selects (see StatsSummarise) |
| ExportService.HeaderLine | backend/src/metrics/export.service.ts:8-20 | the header line splits at commas into the seven column titles and holds no quote and no line break |
| ExportService.CsvFields | backend/src/metrics/export.service.ts:9-17 | seven cells: id, name, type, the amount reading back as the stored hundredths, unit and user (empty when missing or empty), the ISO creation time |
| ExportService.QuoteEach | backend/src/metrics/export.service.ts:21 | every cell is quoted, in order |
| ExportService.CsvLines | backend/src/metrics/export.service.ts:21 | one line per metric, in input order |
| ExportService.CsvLineWithoutNewline | backend/src/metrics/export.service.ts:21 | a row whose cells hold no line break is one line |
| ExportService.CsvDocumentLines | backend/src/metrics/export.service.ts:19-22 | the document splits at `\n` into the header line and then one line per metric, in input order; 1 + n lines, no trailing newline |
| ExportService.ExportToCsvLines | backend/src/metrics/export.service.ts:7-25 | the corrected exporter has the same line structure |
| ExportService.ExportToCsvAsWrittenLines | backend/src/metrics/export.service.ts:7-25 | the exporter as written has 1 + n lines: header first, then the metrics in order |
| ExportService.ReadQuotedEscaped | backend/src/metrics/export.service.ts:21 | a cell with its quotes doubled and then closed reads back as the cell |
| ExportService.ReadLineRoundTrip | backend/src/metrics/export.service.ts:21 | a line of RFC 4180 quoted cells reads back as the cells |
| ExportService.CsvLineReadsBack | backend/src/metrics/export.service.ts:21 | a corrected CSV row reads back as the metric's seven cells |
| ExportService.BareQuoteLinesCollide | backend/src/metrics/export.service.ts:21 | as written, two different metrics can export the same row |
| ExportService.MetricItems | backend/src/metrics/export.service.ts:31 | one JSON entry per metric, in input order |
| ExportService.ExportedAll | backend/src/metrics/export.service.ts:31-41 | the exported view of each metric, in order |
| ExportService.MetricJsonKeys | backend/src/metrics/export.service.ts:31-41 | each entry carries exactly id, name, type, value, unit, metadata, userId, createdAt, updatedAt, in that order |
| ExportService.MetricMembersFound | backend/src/metrics/export.service.ts:31-41 | each of the nine keys holds the metric's corresponding value |
| ExportService.ReadMetricRoundTrip | backend/src/metrics/export.service.ts:31-41 | an entry reads back as the exported view of the metric |
| ExportService.ReadItemsRoundTrip | backend/src/metrics/export.service.ts:31-41 | the array reads back as the exported metrics, in order |
| ExportService.ExportToJsonRoundTrip | backend/src/metrics/export.service.ts:27-43 | totalRecords is the number of metrics, exportDate is the given time, and the metrics array reads back as the metrics in input order |
| ExportService.PdfRowCells | backend/src/metrics/export.service.ts:85-92 | six cells, one per header: name and type cut to 15 characters, the amount, unit or `-`, user cut to 10 or `-`, the local date |
| ExportService.PdfTable | backend/src/metrics/export.service.ts:77-100 | the rows loop yields one row of cells per metric, in input order |
| AddBusiness.InitialForm | frontend/src/pages/AddBusiness.tsx:10-18 | empty required strings, category `other`, every optional property left out |
| AddBusiness.HandleChange | frontend/src/pages/AddBusiness.tsx:36-42 | the named property takes the raw value; every other property is unchanged |
| AddBusiness.HandleChangeLastWins | frontend/src/pages/AddBusiness.tsx:36-42 | two edits of one input keep only the last value |
| AddBusiness.KeepTrimmed | frontend/src/pages/AddBusiness.tsx:45 | trimmed pieces with blanks dropped are non-empty, comma-free and trimmed |
| AddBusiness.ParseList | frontend/src/pages/AddBusiness.tsx:45 | every parsed item is non-empty, has no comma and no surrounding blanks |
| AddBusiness.ParseListComplete | frontend/src/pages/AddBusiness.tsx:45 | every non-blank piece between commas is among the items, trimmed |
| AddBusiness.ParseListSound | frontend/src/pages/AddBusiness.tsx:45 | every item is the trimmed form of a piece between commas |
| AddBusiness.ParseListConcat | frontend/src/pages/AddBusiness.tsx:45 | order is kept: the items before a comma come before those after it |
| AddBusiness.ParseListLeadingBlank | frontend/src/pages/AddBusiness.tsx:45 | a leading blank does not change the list |
| AddBusiness.ParseSingle | frontend/src/pages/AddBusiness.tsx:45 | an item alone parses to itself |
| AddBusiness.ParseListRoundTrip | frontend/src/pages/AddBusiness.tsx:45 | items joined by `", "` parse back to the same list |
| AddBusiness.HandleArrayChange | frontend/src/pages/AddBusiness.tsx:44-50 | the named list takes the parsed items, or is left out (not an empty list) when none remain; every other property is unchanged |
| AddBusiness.BlankListIsLeftOut | frontend/src/pages/AddBusiness.tsx:48 | an empty or comma-only input leaves the list out |
| HomePage.InitialFilters | frontend/src/pages/HomePage.tsx:10-14 | page 1, limit 12, active listings only, nothing else |
| HomePage.HandleSearch | frontend/src/pages/HomePage.tsx:36-39 | sets the query, back to page 1, keeps every other filter |
| HomePage.HandleCategoryFilter | frontend/src/pages/HomePage.tsx:41-43 | sets or clears the category, back to page 1, keeps every other filter |
| HomePage.HandlePageChange | frontend/src/pages/HomePage.tsx:45-48 | changes only the page |
| HomePage.TransitionsKeepActiveOnly | frontend/src/pages/HomePage.tsx:36-48 | no transition drops the active-only filter |
| HomePage.SearchAndCategoryCommute | frontend/src/pages/HomePage.tsx:36-43 | searching and choosing a category commute |
| HomePage.TotalPages | frontend/src/pages/HomePage.tsx:54 | the fewest pages of `limit` (or 12) listings that hold the total; 0 exactly when there are none |
| HomePage.PagerStaysInRange | frontend/src/pages/HomePage.tsx:179-194 | shown only for more than one page; Previous disabled on page 1 and Next on the last, so an enabled button stays in range |
| HomePage.CategoryLabel | frontend/src/pages/HomePage.tsx:50-52 | only the first character is upper-cased |
| HomePage.CategoryLabelOfValue | frontend/src/pages/HomePage.tsx:50-52 | every category's label lower-cases back to its stored value |
| HomePage.CategoryLabelsDistinct | frontend/src/pages/HomePage.tsx:50-52 | different categories get different labels |
| HomePage.DescriptionPreview | frontend/src/pages/HomePage.tsx:152-153 | the first 150 characters, with `...` exactly when the description is longer |
| HomePage.RentalItemTags | frontend/src/pages/HomePage.tsx:160-171 | nothing without items; otherwise the first three items, and a count of the rest exactly when there are more than three |
| HomePage.MoreTagCounts | frontend/src/pages/HomePage.tsx:167-170 | the `+k more` tag reads back as the number of hidden items |
| Text.Trim | frontend/src/pages/AddBusiness.tsx:45 | the trimmed string has no JavaScript white space at either end and is no longer than the input |
| Text.TrimIsInfix | frontend/src/pages/AddBusiness.tsx:45 | the trimmed string is the input with white space removed from its two ends only |
| Text.SplitJoin | frontend/src/pages/AddBusiness.tsx:45 | splitting a join of separator-free pieces gives the pieces back |
| Text.IsSubstringIff | backend/src/business/business.service.ts:41 | ILIKE `%x%` holds exactly when x occurs in the value |
| Text.NatToStringRoundTrip | frontend/src/pages/HomePage.tsx:169 | a count's decimal text reads back as the count |
| Text.CentsRoundTrip | backend/src/metrics/export.service.ts:13 | an amount's decimal text reads back as the amount |

## Left out

- Database, HTTP and framework wiring are not modelled: TypeORM, the controllers, the modules, bootstrap and the seed module. The only controller rule kept is the export limit of 10000 (`MetricsService.ExportRows`).
- Row ids and timestamps are parameters of the store methods. They would come from the database and the clock.
- Ties in ORDER BY are unspecified in the source. The model breaks them with a stable insertion sort.
- The update DTO files (`update-business.dto.ts`, `update-metric.dto.ts`) are not part of this model. The patches are modelled as the create rules applied to each property a patch carries, with every property optional.
- `sortBy` is interpolated into SQL as an arbitrary string. The model accepts the listing's 21 scalar column names and answers `QueryFailed` for any other. It also answers `QueryFailed` for a sort order other than ASC or DESC, where TypeORM's `orderBy` throws before any SQL runs.
- ParseSortField: the five jsonb columns (`rentalItems`, `amenities`, `images`, `operatingHours`, `metadata`) and the tsvector column `searchVector` answer `QueryFailed`, although PostgreSQL orders jsonb and tsvector values; those orderings are not modelled.
- ILIKE is modelled as ASCII case-insensitive substring containment. The `%` and `_` wildcards in user input are not escaped by the source, and their pattern meaning is not modelled.
- Case folding is ASCII only: `toLowerCase`/`toUpperCase` of non-ASCII letters is not modelled, and neither is Unicode normalisation. `trim` uses JavaScript's full set of white space and line terminators.
- The format validators (`IsEmail`, `IsUrl`, `IsDateString`) and date parsing are abstract function parameters. The query-string boolean coercion is modelled as already-coerced booleans.
- Date rendering (`toISOString`, `toLocaleDateString`) is an abstract parameter. So is the export date taken from the clock.
- Floating point: latitude, longitude and rating are reals that are only range-checked. `parseFloat`/`parseInt` of the raw SQL results is not modelled. `average` is an exact real.
- `MetricsService.StatsSummarise`: SQL AVG on decimals is taken as exact division. The rounding of the database's numeric average and of `parseFloat` is not modelled.
- `ExportService.ExportToJsonRoundTrip`: the envelope is a JSON value. Its text rendering by `JSON.stringify` with two-space indentation is not modelled, and neither are the metadata objects beyond JSON values.
- PDF layout is not modelled: fonts, positions, `doc.y` and page breaks belong to pdfkit. Only the table cells are modelled (`ExportService.PdfRowCells`, `ExportService.PdfTable`).
- Concurrency is not modelled: the read-then-write toggles and updates, and the four separate counts of `getStats`, are treated as single-threaded.
- The `searchVector` column is never read or written by the source and is not part of the record.
- React rendering, navigation, `window.scrollTo`, the submit handler and the axios clients are not modelled. Only the state transitions and the text of the card are.
- BusinessQuery.KeyLe, BusinessQuery.KeyLeTotalPreorder, BusinessQuery.SearchPageSound, BusinessService.BusinessStore.FindAll: text columns are ordered by code point. PostgreSQL orders them by the database collation, which is not modelled.
- BusinessService.FirstNamed, BusinessService.EmptySlugFindsFirstRow, BusinessService.BusinessStore.FindBySlug: `findOne` without ORDER BY returns some matching row, not a specified one. The model returns the first match in storage order.
- BusinessService.BusinessStore.FindOne, BusinessService.BusinessStore.Update, BusinessService.BusinessStore.Remove, BusinessService.BusinessStore.ToggleActive, BusinessService.BusinessStore.ToggleFeatured, MetricsService.MetricsStore.FindOne, MetricsService.MetricsStore.Update, MetricsService.MetricsStore.Remove: an id that is not a UUID makes PostgreSQL reject the query, an internal error. The model answers NotFound for it, like any absent id.
- CreateBusinessDto.UpdateRulesMatchValid, CreateBusinessDto.MergeOverwritesExactlyCarried, CreateMetricDto.UpdateRulesMatchValid, CreateMetricDto.MergeOverwritesExactlyCarried: in `UpdateBusinessDto` and `UpdateMetricDto` a property is either absent or carries a value. A JSON `null`, which would clear a nullable column or fail on a NOT NULL one, is not modelled.
- CreateBusinessDto.NewBusiness: the listing's `rating` is a real, not optional, although its column is nullable. A `null` sent for an optional property of a create body passes `@IsOptional` and would be stored as NULL; this is not modelled.
- CreateBusinessDto.CreateRulesMatchValid, SearchBusinessDto.SearchViolations, QueryMetricDto.QueryRulesMatchValid, QueryMetricDto.PageOf, QueryMetricDto.LimitOf: `reviewCount`, `page` and `limit` are integers. A fractional number that passes `@IsNumber` or `@Min` is not modelled.
- HomePage.DescriptionPreview, ExportService.PdfRowCells, ExportService.PdfRow: lengths and cuts count code points. JavaScript's `length` and `substring` count UTF-16 code units, so text outside the Basic Multilingual Plane is cut at a different place.
- `BusinessService.BusinessStore.Create`: only a 32-bit review count can make a valid body overflow its column. `CreateBusinessDto.ValidCreateFitsColumns` states this. Other database errors are not modelled.

## Findings

| source | as written | input that shows it | evidently intended | confidence | as-written member | corrected member |
|---|---|---|---|---|---|---|
| backend/src/metrics/export.service.ts:21 | each CSV cell is wrapped in double quotes, but quotes inside the cell are not doubled, so a quote in a cell ends the cell early | a metric named `a","b` of type `c`, and the same metric named `a` of type `b","c`, export the same CSV row | quotes inside a cell doubled, as RFC 4180 section 2 rule 7 requires, so every row reads back as its seven cells | not executed | ExportService.BareQuoteLinesCollide | ExportService.CsvLineReadsBack |
