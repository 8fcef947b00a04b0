# AI-Solutions log analytics, modelled in Dafny

AI-Solutions-Dashboard is a Django site with Plotly Dash dashboards. A staff
user uploads a web-server access log in the combined log format as a `.txt`
file. The `upload_logs` view reads the file line by line. Each line that
matches `LOG_PATTERN` and whose timestamp parses becomes one `ServerLog` row,
holding the address, timestamp, method, URL, HTTP version, status, size,
referrer, user agent and an optional promo code taken from the query string.
The dashboards then read the whole table and compute their metrics:

- request counts, visitors and top agents;
- logs per day and peak hours;
- top pages, product views against purchases, and daily averages per weekday;
- a geographic map by address prefix and a bounce rate;
- traffic-source and referrer pies;
- the sales charts. A sale is a POST whose URL names a catalogue product,
  priced from the catalogue. The sales charts are revenue per product,
  profit share, the yearly-profit gauge, sales against per-country targets,
  weekly sales trend and average weekly profit.

The model keeps the table as a `seq<LogRecord>` and the upload loop as a
class (`Ingest.ServerLogTable`) whose methods append to it. Every chart is a
function from the rows, and the year selector is a scope. The source's loops
are methods proved equal to those functions. The properties the dashboards
rely on are lemmas about the functions. They cover:

- parse/render round trips for the log line, the timestamp and the record
  description;
- conservation: every matched line is stored or counted as an error;
- grouping and sorting facts: one row per key, each key's sum, the total
  kept, largest first, stable ties, and `head(n)` cutting off nothing larger
  than what it keeps;
- bounds on percentages and means;
- first-match semantics of the prefix and referrer classifiers.

Modules, one per file: `Strings` (strings.dfy), `Calendar` (calendar.dfy),
`LogRecords` (records.dfy), `LogFormat` (logformat.dfy), `Timestamps`
(timestamps.dfy), `Ingest` (ingest.dfy), `Grouping` (grouping.dfy), `Ratios`
(ratios.dfy), `Scope` (scope.dfy), `Catalog` (catalog.dfy), `Countries`
(countries.dfy), `Referrers` (referrers.dfy), `Sales` (sales.dfy), and one
module per chart: `Dashboard`, `DailyLogs`, `PeakHours` (hours.dfy),
`Overview`, `Pages`, `Products`, `Weekdays`, `GeoDistribution`, `BounceRate`,
`Traffic`, `SalesDashboard`, `ProfitGauge`, `ProductRevenue`,
`SalesByCountry`, `SalesTrend`, `WeeklyProfit`.

Conventions of the model:

- Strings are ASCII `seq<char>`: `\d`, `\w`, `\s`, `lower()` and `strip()`
  have their ASCII meaning.
- Floating-point results (percentages, means) are `real`.
- A pandas frame that would be empty, or a query that returns no row, gives
  `None`. That is where the source returns its "No ... data available"
  figure.
- The year dropdown value is an `Option<string>`.
  - `Scope.ScopeOf` gives `AllYears` for no value, an empty value or
    `'all'`.
  - It gives `InYear(y)` for ASCII digits with an optional leading `-`, the
    form `str(year)` writes.
  - It gives `None` for every other text. That includes forms `int()`
    would also accept, such as a leading `+`, surrounding whitespace or `_`
    between digits (see "Left out").

## Behaviour of the code worth knowing

The model follows the code in these places, where a reader might expect
something else:

- Malformed lines during ingestion. One might expect a line that is not in
  the log format to count as rejected. In `logAnalysis/views.py:99-125`, a
  line that `LOG_PATTERN` does not match is skipped without being counted.
  `error_count` only counts matched lines whose timestamp fails to parse.
  `Ingest.IngestLine` and `Ingest.IngestCounts` state this.
- Promo code value. One might expect the whole text after `promo_code=`.
  The code reads `param.split('=')[1]`, which also cuts the value at the
  next `=` (`logAnalysis/views.py:78`). `Ingest.PromoValue` models the cut.
- Timestamp conversion. One might expect timestamps to be normalised to a
  single instant. The model keeps the wall-clock fields and the UTC offset
  exactly as `strptime` produces them, with no conversion (see "Left out").
- Top-page ties. `Counter.most_common` breaks ties in first-encountered
  order, and `Grouping.MostCommon` models that. The ORM variant in
  `logAnalysis/dash_components/top_pages.py` (`order_by('-visit_count')`)
  leaves ties unspecified, and the model gives it the same stable order.

## Model

| member | source | states |
|---|---|---|
| LogRecords.ReadDescribe | logAnalysis/models.py:15-16 | `ServerLog.__str__` loses nothing essential: reading a description back gives the record's ip, method, url and status whenever ip and method contain no space, for any url |
| LogFormat.ParseRender | logAnalysis/views.py:67-69 | a well-formed match written as a combined-log-format line, followed by any text, is matched by `LOG_PATTERN` back to the same named groups |
| LogFormat.ParseSound | logAnalysis/views.py:67-69 | whatever the pattern matches satisfies the group grammar (ip of digits and dots, `\w+` method, `HTTP/d.d`, digit status and size, one-line fields) and the line starts with that match's rendering |
| LogFormat.ParseTarget | logAnalysis/views.py:68 | the lazy url/query groups end at the first ` HTTP/d.d"` marker; the target is one line and the text is target + marker + rest |
| LogFormat.ParseTargetOf | logAnalysis/views.py:68 | a one-line target without `"` before a version marker is read back exactly, with the rest of the line |
| LogFormat.ParseNumbers | logAnalysis/views.py:68 | status and size are non-empty digit runs between single spaces, followed by ` "` |
| LogFormat.ParseNumbersOf | logAnalysis/views.py:68 | any two digit strings written with those separators are read back |
| LogFormat.ParseAgents | logAnalysis/views.py:68 | the referrer runs to the first `" "` and the user agent to the next `"`; both are one line and the agent holds no quote |
| LogFormat.ParseAgentsOf | logAnalysis/views.py:68 | one-line referrer and agent texts without quotes are read back exactly |
| LogFormat.Delimited | logAnalysis/views.py:68 | a lazy group followed by a delimiter stops at the delimiter's first occurrence and never crosses a line end |
| LogFormat.DelimitedOf | logAnalysis/views.py:68 | a quote-free one-line field followed by a delimiter whose first quote comes early is taken back exactly |
| LogFormat.SplitQuery | logAnalysis/views.py:68 | the url stops at the first `?` and url plus `?query` rebuilds the target |
| LogFormat.SplitQueryOf | logAnalysis/views.py:68 | splitting a url without `?` plus its optional query gives back both |
| LogFormat.FindAfter | logAnalysis/views.py:68 | a delimiter containing a quote cannot be found inside a quote-free prefix: its first occurrence is where the prefix ends |
| LogFormat.FindVersionAfter | logAnalysis/views.py:68 | the first version marker after a quote-free target is the one that ends it |
| Timestamps.ParseTimestamp | logAnalysis/views.py:105 | every timestamp `strptime("%d/%b/%Y:%H:%M:%S %z")` accepts is a valid aware datetime: a real calendar date, hour < 24, minute and second < 60, offset within one day |
| Timestamps.ParseFormat | logAnalysis/views.py:105 | every valid timestamp written with the same format string is parsed back to itself |
| Timestamps.ReadMonth | logAnalysis/views.py:105 | `%b` gives 1..12 exactly for the month abbreviations in any case, and None for every other text |
| Timestamps.MonthAnyCase | logAnalysis/views.py:105 | the month is read the same whatever its letter case |
| Timestamps.ReadDay | logAnalysis/views.py:105 | `%d` yields a day from 1 to 31 |
| Timestamps.ReadYear | logAnalysis/views.py:105 | `%Y` yields a year from 0 to 9999 (year 0 is then refused by the date check) |
| Timestamps.ReadSmall | logAnalysis/views.py:105 | `%H`, `%M`, `%S` yield values no larger than their maximum (23, 59, 61) |
| Timestamps.ReadZone | logAnalysis/views.py:105 | `%z` yields an offset strictly within one day of UTC |
| Timestamps.ReadFormatZone | logAnalysis/views.py:105 | every offset within a day, written as `strftime` writes `%z`, reads back to itself |
| Timestamps.BuildFormat | logAnalysis/views.py:105 | the seven fields of a valid timestamp, written out, build back that timestamp |
| Calendar.IsoCalendarFacts | logAnalysis/dash_components/sales_trend.py:65 | `date.isocalendar()` places a valid date in week 1..53 of its ISO year (on or after that year's week-1 Monday and before the next year's) and its ISO weekday is `weekday() + 1` |
| Calendar.IsoWeekIsMondayWeek | logAnalysis/dash_components/sales_trend.py:65 | two dates share ISO year and ISO week exactly when they share the Monday that starts their week |
| Calendar.WeekStart | logAnalysis/dash_components/refferer_chart.py:68 | a `W` period's start is a valid Monday on or before the date and less than seven days before it |
| Calendar.DaysBeforeYearClosedForm | logAnalysis/dash_components/sales_trend.py:65 | the running sum of Gregorian year lengths equals CPython's closed formula `_days_before_year` for every year |
| Calendar.OrdinalPositive | logAnalysis/dash_components/refferer_chart.py:68 | every valid date has a positive day number, 1 exactly for 0001-01-01 |
| Calendar.DateKeyRoundTrip | logAnalysis/visuals/linechart.py:20-26 | the integer day key that stands for `TruncDay` determines its date |
| Calendar.DateKeyOrder | logAnalysis/visuals/linechart.py:20-26 | day keys order exactly as (year, month, day) |
| Ingest.PromoValue | logAnalysis/views.py:78 | the value of a `promo_code=` parameter is the text after the first `=` up to the next `=` or the end, and holds no `=` |
| Ingest.FirstPromo | logAnalysis/views.py:76-78 | None exactly when no parameter starts with `promo_code=`; otherwise the value of the first one that does |
| Ingest.PromoCode | logAnalysis/views.py:73-74 | an absent or empty query string has no promo code |
| Ingest.ExtractPromoCode | logAnalysis/views.py:71-79 | the search loop with its early return computes the promo code specified by `PromoCode` |
| Ingest.PromoValueOf | logAnalysis/views.py:78 | `promo_code=v` gives back v when v holds no `=` |
| Ingest.FirstPromoOf | logAnalysis/views.py:76-78 | the first parameter starting with `promo_code=` is the one chosen, whatever follows |
| Ingest.PromoCodeOfParams | logAnalysis/views.py:75-78 | a non-empty query is read as its `&`-separated parameters |
| Ingest.PromoCodeOfQuery | logAnalysis/views.py:71-79 | a query built from parameters whose first `promo_code=` carries a value without `=` or `&` yields exactly that value |
| Ingest.PromoCodeNeedsPrefix | logAnalysis/views.py:77-79 | a parameter with text in front of `promo_code=` is not a promo code |
| Ingest.ReferrerOf | logAnalysis/views.py:119 | the stored referrer is absent exactly when the text is `-`, and is the text otherwise |
| Ingest.IngestLine | logAnalysis/views.py:99-125 | a line is skipped exactly when the pattern does not match it, counted as an error exactly when it matches but its timestamp fails, and otherwise stored as a record with a valid timestamp, an ip of digits and dots, a word method, a url without `?`, an `HTTP/d.d` version, non-negative status and size and no `-` referrer |
| Ingest.IngestRender | logAnalysis/views.py:99-122 | a well-formed line followed by any text is stored as the record built from its own fields |
| Ingest.IngestCounts | logAnalysis/views.py:93-125 | stored records plus counted errors equal the number of lines the pattern matches |
| Ingest.StoredOfSound | logAnalysis/views.py:111-123 | every stored record comes from a line that stored it |
| Ingest.StoredOfComplete | logAnalysis/views.py:111-123 | every line that stores a record contributes that record |
| Ingest.StoredDated | logAnalysis/views.py:105-122 | every record an upload stores has a calendar date, the premise of the charts that group by day, week or year |
| Ingest.IngestOne | logAnalysis/views.py:99-125 | the loop body for one line computes the outcome specified by `IngestLine` |
| Ingest.ServerLogTable.UploadLines | logAnalysis/views.py:96-125 | the `for line in f` loop appends exactly the stored records of the lines, in line order, to the table, and returns `log_count` and `error_count`, which add up to the matched lines |
| Ingest.ServerLogTable.Keep | logAnalysis/views.py:111-123 | `ServerLog.objects.create` appends the record of a stored line and nothing otherwise |
| Ingest.ServerLogTable.UploadLogs | logAnalysis/views.py:81-138 | the view appends the records of an accepted file and leaves the messages its branches produce (no file, wrong type, counts) |
| Ingest.RefuseNonText | logAnalysis/views.py:85-87 | a named file not ending in `.txt` is refused with a single error and nothing is stored |
| Ingest.CountMessagesFacts | logAnalysis/views.py:127-130 | the success message appears exactly when something was stored and comes first; the warning appears exactly when a matched line failed; no error message |
| Ingest.AcceptedMessages | logAnalysis/views.py:93-130 | an accepted file gives the messages of its two counters, and the counters add up to the matched lines |
| Strings.JoinSplit | logAnalysis/views.py:75 | joining the pieces of `split(c)` with c gives back the text |
| Strings.SplitJoin | logAnalysis/views.py:75 | splitting pieces free of the separator after joining them gives back the pieces |
| Strings.ParseIntToStr | logAnalysis/views.py:117 | `int(str(i)) == i` for every integer |
| Strings.LowerLower | logAnalysis/dash_components/sales_dashboard.py:80 | `lower()` is idempotent |
| Scope.ScopeOf | logAnalysis/dash_components/bounce_rate.py:17-20 | no year, an empty year or `'all'` keep every record, and only they do |
| Scope.ScopeOfYear | logAnalysis/dash_components/bounce_rate.py:17-20 | a year written out as the dropdown writes it selects that year |
| Scope.InYearScope | logAnalysis/dash_components/peak_hours2.py:17-20 | the year filter keeps exactly the records of the scope, and every record for all years |
| Scope.PostsIn | logAnalysis/dash_components/bounce_rate.py:23 | the POST records of a scope are exactly the records that are POST and in scope |
| Scope.FilterAppend | logAnalysis/dash_components/bounce_rate.py:23 | filtering a concatenation filters each part in order |
| Scope.FilterAll | logAnalysis/dash_components/bounce_rate.py:23 | a filter keeps every record exactly when its predicate holds of each |
| Catalog.ProductsFacts | logAnalysis/dash_components/sales_dashboard.py:10-30 | every catalogue product has a name without `/`, a price from 1 200 to 30 000 and a positive cost below its price |
| Catalog.Price | logAnalysis/dash_components/sales_dashboard.py:10-30 | `PRODUCT_PRICES.get(p)` has a value exactly for the catalogue's products |
| Catalog.Cost | logAnalysis/dash_components/sales_dashboard.py:10-30 | `PRODUCT_COSTS.get(p)` has a value exactly for the same products |
| Catalog.PriceRange | logAnalysis/dash_components/sales_dashboard.py:10-30 | every price lies between the cheapest and the dearest |
| Catalog.Profit | logAnalysis/dash_components/sales_dashboard.py:114 | price minus cost is positive and below the price |
| Catalog.ProductOf | logAnalysis/dash_components/sales_dashboard.py:105-111 | a purchase URL names a product only when it starts with `/solutions/<product>` followed by `/` or the end, and the product is priced |
| Catalog.ProductOfUrl | logAnalysis/dash_components/sales_dashboard.py:105-111 | `/solutions/<p>` with or without a further path names p, for every priced p |
| Catalog.SegmentAfterSolutions | logAnalysis/dash_components/sales_dashboard.py:106-109 | behind `/solutions/` the third `/`-piece runs to the next `/` or the end |
| Catalog.ProductNameOfProduct | logAnalysis/dash_components/product_sales.py:45-47 | `extract_product_name` agrees with the sales charts whenever a URL names a product |
| Catalog.FindName | logAnalysis/dash_components/sales_dashboard.py:39-50 | an affiliate's name is found exactly when some row has the code, and it is that row's name |
| Catalog.EmployeeOf | logAnalysis/dash_components/sales_dashboard.py:115 | an absent or unknown promo code credits nobody; a known one credits its affiliate |
| Countries.FirstPrefix | logAnalysis/dash_components/sales_dashboard.py:67-74 | None exactly when no prefix starts the address; otherwise the country of the first row in table order that does |
| Countries.FindPrefix | logAnalysis/dash_components/sales_dashboard.py:71-73 | the `for prefix, name in ...: if ip.startswith(prefix)` loop with `break` computes `FirstPrefix` |
| Countries.CountryFromIp | logAnalysis/dash_components/sales_dashboard.py:67-74 | `get_country_from_ip` with its guard and early returns computes `SalesCountry` |
| Countries.SalesCountry | logAnalysis/dash_components/sales_dashboard.py:69-70 | an empty address has no country |
| Countries.EmptyMatchesNothing | logAnalysis/dash_components/sales_dashboard.py:69-70 | an empty address matches no row of a table without empty prefixes, so the guard changes nothing |
| Countries.OnlyMatch | logAnalysis/dash_components/sales_dashboard.py:32-37 | in a table of exclusive prefixes the first match is the only one, so the table's order does not matter |
| Countries.TablesExclusive | logAnalysis/dash_components/sales_dashboard.py:32-37 | the three prefix tables have exclusive non-empty prefixes, the same four in the same order |
| Countries.RenamedTable | logAnalysis/dash_components/sales_dashboard.py:32-37 | a table with the same prefixes and renamed countries finds the renamed country of the first table's match |
| Countries.TargetVersusSales | logAnalysis/dash_components/sales_by_country.py:26-31 | the sales-by-country table agrees with the dashboard's, except that it calls `102.` Zambia |
| Countries.TrendVersusSales | logAnalysis/dash_components/sales_trend.py:20-25 | the trend table finds a country exactly when the dashboard's does, and gives its code |
| Referrers.Categorize | logAnalysis/dash_components/sales_dashboard.py:76-91 | the whole priority chain: Direct exactly for no referrer, an empty one or a padded dash; otherwise, on the lower-cased referrer, Google exactly when it contains `google.com`, then LinkedIn (`linkedin.com`), Twitter (`twitter.com`) and Facebook (`facebook.com`) each exactly when it contains its domain and no earlier one, Other Search exactly when it contains `bing.com` or `yahoo.com` and none of those four, and Other Referral exactly when it contains none of the six domains |
| Referrers.PlatformOfCategory | logAnalysis/dash_components/referrer_pie.py:28-39 | the pie's three-way policy is the seven-way one with everything other than Google, LinkedIn and Twitter dropped |
| Referrers.StripDash | logAnalysis/dash_components/sales_dashboard.py:78 | a referrer that strips to `-` holds only whitespace and dashes |
| Referrers.GoogleFirst | logAnalysis/dash_components/sales_dashboard.py:81-82 | a referrer containing `google.com` counts as Google whatever else it contains |
| Referrers.SourceNamesDiffer | logAnalysis/dash_components/sales_by_traffic.py:57-65 | different sources have different labels, so grouping by label is grouping by source |
| Sales.SaleProfit | logAnalysis/dash_components/sales_dashboard.py:114 | a priced sale's profit is positive and below its amount |
| Sales.ProductFromUrl | logAnalysis/dash_components/sales_dashboard.py:104-111 | the loops' product lines compute `ProductOf` |
| Sales.DashboardSaleOfLog | logAnalysis/dash_components/sales_dashboard.py:97-125 | the loop body for one record computes its row under the country filter |
| Sales.DashboardLoop | logAnalysis/dash_components/sales_dashboard.py:97-125 | the loop over the POST records collects exactly the rows of its records, in order |
| Sales.ExtractSalesData | logAnalysis/dash_components/sales_dashboard.py:93-129 | `extract_sales_data(country_filter)` computes the dashboard's rows |
| Sales.DashboardSalesSound | logAnalysis/dash_components/sales_dashboard.py:95-125 | every row comes from a stored POST record, is priced from the catalogue, carries its address's country (and the chosen one when a country is chosen), and an absent promo code credits nobody |
| Sales.DashboardSalesComplete | logAnalysis/dash_components/sales_dashboard.py:95-125 | every POST record of the chosen country that names a product gives a row |
| Sales.CountrySaleOfLog | logAnalysis/dash_components/sales_by_country.py:42-67 | the loop body for one record computes its country-bearing row |
| Sales.ExtractCountrySales | logAnalysis/dash_components/sales_by_country.py:42-67 | the loop collects exactly those rows in order |
| Sales.CountrySalesSound | logAnalysis/dash_components/sales_trend.py:41-70 | each row comes from a record, is priced, and has the country its stripped address matches |
| Sales.CountrySalesComplete | logAnalysis/dash_components/sales_trend.py:41-70 | a record with a product and a matched address gives a row |
| Sales.ExtractCatalogSales | logAnalysis/dash_components/sales_by_product.py:49-64 | the product-sales loop collects exactly the catalogue rows of the records |
| Sales.CatalogSalesFacts | logAnalysis/dash_components/profit_gauge.py:37-48 | each row comes from a record and is priced; each record naming a product gives a row |
| Sales.CatalogSalesEmpty | logAnalysis/dash_components/profit_gauge.py:37-48 | there is no row exactly when no record names a product |
| Sales.CatalogSalesOf | logAnalysis/dash_components/sales_by_product.py:49-64 | a product has a row exactly when some record names it |
| Sales.ScopeSalesData | logAnalysis/dash_components/profit_gauge.py:35-48 | filtering the POST records by year and then running the loop computes `ScopeSales` |
| Sales.ScopeSalesFacts | logAnalysis/dash_components/profit_gauge.py:35-48 | every row comes from a POST record of the scope and is priced; every such record naming a product gives a row |
| Sales.ScopeSalesEmpty | logAnalysis/dash_components/profit_gauge.py:35-48 | no row exactly when no POST record of the scope names a product |
| SalesDashboard.TrafficSourcesFacts | logAnalysis/dash_components/sales_dashboard.py:199-206 | the traffic pie is empty exactly without sales; otherwise it has one slice per source that occurs, largest first, each counting its sales, adding up to the number of sales |
| SalesDashboard.ProfitShareFacts | logAnalysis/dash_components/sales_dashboard.py:248-255 | the profit pie names each product sold once and no other, each product's share is its profit sum as a percentage of the total profit, so above 0 and at most 100 percent, and the shares add up to 100 |
| SalesDashboard.GroupShares | logAnalysis/dash_components/sales_dashboard.py:253-255 | grouped positive amounts give each key its sum as a percentage of the whole, above 0 and at most 100, and the shares add up to 100 |
| SalesDashboard.SharesTotal | logAnalysis/dash_components/sales_dashboard.py:253-255 | percentages of one total add up to the percentage of their sum |
| SalesDashboard.AverageYearlyProfitFacts | logAnalysis/dash_components/sales_dashboard.py:389-400 | the yearly-profit gauge is 0 without sales; otherwise it is the total profit over the number of years with a sale (one ascending sum per such year), so positive and at most the total |
| SalesDashboard.SaleDaysFacts | logAnalysis/dash_components/sales_dashboard.py:446-452 | the sale-days gauge counts distinct sale dates: 0 exactly without sales, never more than the sales |
| SalesDashboard.AssistantShareFacts | logAnalysis/dash_components/sales_dashboard.py:551-570 | the virtual-assistant share is in [0, 100]; 100 exactly when the country has records and all ask for the assistant, 0 exactly when none does |
| SalesDashboard.FilterShare | logAnalysis/dash_components/sales_dashboard.py:564-570 | the percentage of records a filter keeps is in [0, 100], 100 exactly when it keeps all of at least one, 0 exactly when it keeps none |
| ProfitGauge.GaugeValueFacts | logAnalysis/dash_components/profit_gauge.py:50-59 | no value exactly when the year does not parse; 0 without sales; for `'all'` the mean of the yearly sums (positive, at most the total); for any other year the positive total |
| ProfitGauge.YearlyMeanFacts | logAnalysis/dash_components/profit_gauge.py:55-57 | the mean of yearly sums is the total over the number of years with a sale, positive and at most the total |
| ProfitGauge.AllDiffersFromUnset | logAnalysis/dash_components/profit_gauge.py:55-59 | with sales in two years, choosing `'all'` shows a smaller value than choosing no year, although both keep every record |
| ProfitGauge.TwoYearsMean | logAnalysis/dash_components/profit_gauge.py:57 | over sales of two different years the yearly mean is below the total |
| ProfitGauge.BarColourFacts | logAnalysis/dash_components/profit_gauge.py:62-63 | red below 9 000 000, green from 15 000 000, orange between, and a larger value never gets a lower colour |
| ProfitGauge.YearAmountsPositive | logAnalysis/dash_components/profit_gauge.py:47 | every amount is at least the cheapest price |
| BounceRate.CollectIps | logAnalysis/dash_components/bounce_rate.py:25-28 | the loop filling `ip_data` computes `VisitorIps` |
| BounceRate.VisitorIpsFacts | logAnalysis/dash_components/bounce_rate.py:26-28 | the list holds exactly the non-empty addresses of the records |
| BounceRate.BouncesCount | logAnalysis/dash_components/bounce_rate.py:35-36 | `(ip_counts == 1).sum()` is the number of addresses seen exactly once |
| BounceRate.RateFacts | logAnalysis/dash_components/bounce_rate.py:32-38 | the rate is a percentage, 0 without addresses; with addresses it is 100 exactly when no address repeats and 0 exactly when every address is seen at least twice |
| BounceRate.AllSingles | logAnalysis/dash_components/bounce_rate.py:35-38 | every distinct address is a bounce exactly when none repeats |
| BounceRate.NoSingles | logAnalysis/dash_components/bounce_rate.py:35-38 | there is no bounce exactly when each address is seen at least twice |
| BounceRate.CountWhereAll | logAnalysis/dash_components/bounce_rate.py:36 | a count reaches the length exactly when all items qualify, and 0 exactly when none does |
| BounceRate.CountWhereCard | logAnalysis/dash_components/bounce_rate.py:36 | over distinct items, the count is the size of the set of qualifying items |
| BounceRate.BounceRateGauge | logAnalysis/dash_components/bounce_rate.py:22-38 | the gauge's value is the rate of the scope's POST records |
| BounceRate.BounceRateOfFacts | logAnalysis/dash_components/bounce_rate.py:23-38 | the rate of a scope is a percentage over exactly the non-empty addresses of its POST records |
| GeoDistribution.CountFirstMatch | logAnalysis/dash_components/geo_distribution.py:37-41 | the prefix loop reports a match exactly when a prefix starts the address, and adds one to the first match's country only |
| GeoDistribution.CountRecord | logAnalysis/dash_components/geo_distribution.py:34-45 | the record body bumps the first matching country, or the unmatched counter for a non-empty unmatched address |
| GeoDistribution.CountLoop | logAnalysis/dash_components/geo_distribution.py:33-45 | after the loop every country's counter holds its number of matched records and the unmatched counter the number of unmatched records |
| GeoDistribution.CountCountries | logAnalysis/dash_components/geo_distribution.py:30-53 | for compatible tables, the loops and the frame give one row per code-table country with its count |
| GeoDistribution.ProcessLogData | logAnalysis/dash_components/geo_distribution.py:28-53 | `process_log_data` with the map's own tables computes `GeoTable` and the unmatched count |
| GeoDistribution.BumpCounts | logAnalysis/dash_components/geo_distribution.py:39 | bumping counters that count s gives counters that count s plus the new match |
| GeoDistribution.RecordStep | logAnalysis/dash_components/geo_distribution.py:45 | one more record adds its country to the matches and itself, if unmatched, to the unmatched records |
| GeoDistribution.GeoConservation | logAnalysis/dash_components/geo_distribution.py:33-47 | country counts, the unmatched counter and the blank-address records add up to all records |
| GeoDistribution.MapFacts | logAnalysis/dash_components/geo_distribution.py:49-53 | the map has four rows (Botswana, South Africa, Namibia, Zimbabwe with their codes), zero without records, and its counts add up with the unmatched and blank records to all records |
| GeoDistribution.RecordCountry | logAnalysis/dash_components/geo_distribution.py:34-41 | a record counts for a country exactly when its stripped address starts with that country's prefix, and for no other |
| GeoDistribution.RecordsSplit | logAnalysis/dash_components/geo_distribution.py:43-45 | every record is matched, unmatched or blank, exactly one of these |
| GeoDistribution.MapTablesCompatible | logAnalysis/dash_components/geo_distribution.py:14-26 | the prefix table names only countries of the code table, each once, with no empty prefix |
| GeoDistribution.LogsTotalCounts | logAnalysis/dash_components/geo_distribution.py:47 | the logs column adds up the counts of the code table's countries |
| Dashboard.SummaryBounds | logAnalysis/views.py:31-35 | the three status counts never exceed the total, visitors never exceed requests, and there is a visitor exactly when there is a request |
| Dashboard.ThreeCounts | logAnalysis/views.py:32-34 | counts of three different values add up to at most the length |
| Dashboard.VisitorsPerDayFacts | logAnalysis/views.py:38-42 | one point per day with a request, ascending, each counting the different addresses seen that day, so between 1 and the overall number of distinct visitors |
| Dashboard.DateLabelValue | logAnalysis/views.py:45 | a `Y-m-d` label reads back as the date it names |
| Dashboard.TopAgentsFacts | logAnalysis/views.py:49-53 | at most ten agents, most frequent first, each with its number of requests; an agent left out made no more requests than any listed one |
| DailyLogs.LogsPerDayFacts | dash_app/dash_apps.py:20-46 | no points exactly without records; otherwise points in calendar order, one per day with a record and no other, each counting that day's records, adding up to all records |
| DailyLogs.DayPoints | dash_app/dash_apps.py:20-36 | each point is a record's date and counts that date's records, and every record's date has a point |
| DailyLogs.DayOrder | dash_app/dash_apps.py:22-27 | the points come in calendar order |
| DailyLogs.DayCountsTotal | logAnalysis/visuals/linechart.py:19-31 | the points keep the total of the counted keys |
| DailyLogs.CountDayKeys | logAnalysis/visuals/linechart.py:20-26 | counting day keys counts dates |
| DailyLogs.PointOfKey | logAnalysis/visuals/linechart.py:20-26 | a day key of a record reads back as the record's date and counts that date's records |
| PeakHours.HourlyTrafficFacts | logAnalysis/dash_components/peak_hours.py:19-31 | no bars exactly without records; otherwise ascending hours, one per hour some record has and no other, each labelled and counting that hour's records, adding up to all records |
| PeakHours.HourlyTrafficRange | logAnalysis/dash_components/peak_hours.py:19-31 | valid timestamps give at most 24 bars, hours 0 to 23 |
| PeakHours.HourLabelFacts | logAnalysis/dash_components/peak_hours.py:30 | an `"<h>:00"` label gives back its hour, so different hours get different labels |
| PeakHours.PeakHoursHistogramFacts | logAnalysis/dash_components/peak_hours.py:33-38 | the histogram is empty exactly without records and counts every record |
| PeakHours.PeakHoursChartFacts | logAnalysis/dash_components/peak_hours2.py:22-35 | the chart of a year is empty exactly when the year has no record; its bars are the hours of that year's records and add up to them |
| PeakHours.HourRowsTotal | logAnalysis/dash_components/peak_hours.py:19-31 | the bars list the counted hours and keep the total |
| WeeklyProfit.WeeklyAverageFacts | logAnalysis/dash_components/refferer_chart.py:42-71 | empty exactly when no POST record of the scope names a product; otherwise points in ascending week order, each on a Monday, one per week with a sale and no other, each averaging its week's amounts between the cheapest and dearest price |
| WeeklyProfit.WeekOrder | logAnalysis/dash_components/refferer_chart.py:71 | the weeks ascend and each starts on a Monday |
| WeeklyProfit.WeekMeansAveraged | logAnalysis/dash_components/refferer_chart.py:71 | each point is its week's sum over its week's number of sales, between the cheapest and dearest price |
| WeeklyProfit.WeekMeansCover | logAnalysis/dash_components/refferer_chart.py:71 | a week has a point exactly when a sale falls in it |
| WeeklyProfit.GroupMeanBounds | logAnalysis/dash_components/refferer_chart.py:71 | a group mean is its sum over its count and lies within bounds every amount lies within |
| WeeklyProfit.WeekOfSale | logAnalysis/dash_components/refferer_chart.py:68 | a sale's date lies in the week of its key's Monday |
| WeeklyProfit.WeekAmountsMondays | logAnalysis/dash_components/refferer_chart.py:68 | every week key is a Monday |
| ProductRevenue.ProductSalesData | logAnalysis/dash_components/sales_by_product.py:45-66 | `extract_sales_data()` computes the catalogue rows of all POST records |
| ProductRevenue.RevenueFacts | logAnalysis/dash_components/sales_by_product.py:68-77 | empty exactly when no POST record names a product; otherwise largest first, one bar per product sold and no other, each its price times its number of sales, adding up to all sales |
| ProductRevenue.RankedRevenue | logAnalysis/dash_components/sales_by_product.py:76 | each ranked product's sum is its price times its number of sales |
| ProductRevenue.PricedSum | logAnalysis/dash_components/sales_by_product.py:63 | a product's sum is its price times its number of sales |
| ProductRevenue.SoldProductsOf | logAnalysis/dash_components/sales_by_product.py:49-64 | a product is among the sales exactly when a POST record names it |
| ProductRevenue.ProductSalesEmpty | logAnalysis/dash_components/sales_by_product.py:72-73 | no sales exactly when no POST record names a product |
| Overview.YearOptionsFacts | logAnalysis/dash_components/overiew_dashboard.py:38-48 | "All Years" first, selecting everything; then one option per record year, ascending, each labelled by its value and selecting its year; no two values alike |
| Overview.OptionsFacts | logAnalysis/dash_components/overiew_dashboard.py:38-48 | over ascending years, the options select all records and then each year in turn, with distinct values |
| Overview.EntriesSelect | logAnalysis/dash_components/overiew_dashboard.py:44-47 | each year's entry is labelled by its value and selects that year |
| Overview.EntriesDistinct | logAnalysis/dash_components/overiew_dashboard.py:44-47 | entries of distinct years have distinct values, none of them `all` |
| Overview.IntToStrInjective | logAnalysis/dash_components/overiew_dashboard.py:44-47 | different years are written differently |
| Pages.TopPagesFacts | logAnalysis/dash_components/overiew_dashboard.py:234-240 | at most five pages, most visited first, each with its visits and none twice; a page left out has no more visits than any listed; empty exactly without records |
| Pages.CleanUrlFacts | logAnalysis/dash_components/top_pages.py:25-30 | a label has no `?` and at most 40 characters: 20 + `...` + 15 for a long URL, the URL itself otherwise; cleaning is idempotent |
| Pages.QueryCutFacts | logAnalysis/dash_components/top_pages.py:27 | cutting the query keeps the URL up to its first `?` |
| Pages.CleanUrlShort | logAnalysis/dash_components/top_pages.py:28-30 | a short URL without a query is its own label |
| Pages.TopPagesChartFacts | logAnalysis/dash_components/top_pages.py:32-40 | the bars are the top pages in order, each labelled by its cleaned URL, largest first |
| Products.ProductTableFacts | logAnalysis/dash_components/product_sales.py:41-60 | empty exactly without views and purchases; otherwise at most ten rows, no product twice, each with its views and purchases, views largest first |
| Products.ProductTableCut | logAnalysis/dash_components/product_sales.py:60 | a product left out has no more views than any listed, and with fewer than ten rows none is left out |
| Products.RowsFacts | logAnalysis/dash_components/product_sales.py:53-60 | merged rows keep their products, views and order, and add each product's purchases |
| Products.NamesOfFacts | logAnalysis/dash_components/product_sales.py:45-50 | the product names are exactly those of the records' URLs |
| Products.ProductDataEmpty | logAnalysis/dash_components/product_sales.py:41-42 | no data exactly when the scope has neither a view nor a purchase |
| Products.ProductNamesFacts | logAnalysis/dash_components/product_sales.py:20-35 | views come only from GET records under `/solutions/` in scope, purchases only from POST records in scope |
| Weekdays.DayRows | logAnalysis/dash_components/line_chart.py:40-49 | the `for day in days` loop builds the table specified by `DayTable` |
| Weekdays.DailyAvgChart | logAnalysis/dash_components/overiew_dashboard.py:271-296 | the chart computation gives `DailyAverages` |
| Weekdays.DailyAveragesFacts | logAnalysis/dash_components/overiew_dashboard.py:271-296 | empty exactly when the scope is empty; otherwise seven rows Monday to Sunday counting the scope's records and POST records, no more sales than visitors, conversion a percentage, columns adding up |
| Weekdays.DailyAvgDataFacts | logAnalysis/dash_components/line_chart.py:19-51 | the line chart's table: empty exactly without records; otherwise seven rows whose visitors add up to the records and sales to the POST records |
| Weekdays.RowFacts | logAnalysis/dash_components/line_chart.py:43 | conversion is between 0 and 100 percent, 0 without visitors |
| Weekdays.TableTotals | logAnalysis/dash_components/line_chart.py:40-49 | the columns add up the counts of the listed days |
| Weekdays.DaysFacts | logAnalysis/dash_components/line_chart.py:40-49 | the seven day names differ and every record's day is one of them |
| Weekdays.FilterDayCount | logAnalysis/dash_components/line_chart.py:40-49 | keeping some records keeps no more names of a day |
| SalesByCountry.Lookup | logAnalysis/dash_components/sales_by_country.py:75 | a target exists exactly for the table's countries |
| SalesByCountry.TargetsCoverTable | logAnalysis/dash_components/sales_by_country.py:33-38 | every country of the chart's prefix table has a positive target |
| SalesByCountry.DecomposeFacts | logAnalysis/dash_components/sales_by_country.py:76-79 | achieved plus over is the amount, achieved plus under is the target, at most one of them is nonzero, neither negative, achieved is the smaller, over > 0 iff amount > target, under > 0 iff amount < target |
| SalesByCountry.BarsFacts | logAnalysis/dash_components/sales_by_country.py:75-79 | bars keep the rows in order and give each country its own target with parts that add up |
| SalesByCountry.TargetTableFacts | logAnalysis/dash_components/sales_by_country.py:69-79 | a bar exactly when there is a sale; one bar per country with a sale, holding its sum against its own target with parts that add up; the bars add up to all sales |
| SalesByCountry.ChartSalesTargeted | logAnalysis/dash_components/sales_by_country.py:26-38 | every country the chart's table gives has a target, and every row is priced |
| SalesByCountry.ChartCountries | logAnalysis/dash_components/sales_by_country.py:40-67 | each bar's country is the match of the stripped address of a POST record in scope that names a product |
| SalesTrend.WeeklyTableFacts | logAnalysis/dash_components/sales_trend.py:74-84 | empty exactly without sales; otherwise one row per (year, week) that occurs, ascending, weeks 1 to 53, each with its label and its week's sum, adding up to all sales |
| SalesTrend.WeekKeyFacts | logAnalysis/dash_components/sales_trend.py:65-66 | a week key gives back its year and week (1..53) and orders as the (year, week) pair |
| SalesTrend.IsoKeyIsWeek | logAnalysis/dash_components/sales_trend.py:65-66 | with the ISO year, two dates share a key exactly when they lie in the same Monday-to-Sunday week |
| SalesTrend.CalendarYearMergesWeeks | logAnalysis/dash_components/sales_trend.py:65-66 | with the calendar year, as written, 2024-12-30 and 2024-01-01 share the key `2024-W01` though they are 52 weeks apart; with the ISO year they do not |
| SalesTrend.WeekLabelFacts | logAnalysis/dash_components/sales_trend.py:80 | the label is the year, `-W`, and at least two digits that read back as the week |
| SalesTrend.TrendSalesDated | logAnalysis/dash_components/sales_trend.py:37-72 | the trend's rows are priced and dated |
| Traffic.SalesBySourceFacts | logAnalysis/dash_components/sales_by_traffic.py:44-54 | empty exactly without POST records; otherwise one slice per source among the POST records, largest first, each counting its records, adding up to the POST records |
| Traffic.RegroupReferrers | logAnalysis/dash_components/sales_by_traffic.py:16-25 | regrouping the per-referrer counts by category counts each category's records, and a category appears exactly when some record has it |
| Traffic.ReferrerPieFacts | logAnalysis/dash_components/referrer_pie.py:41-50 | empty exactly without records; otherwise one slice per platform some referrer names and no other, in name order, each counting its records; slices plus records without a platform add up to all records |
| Traffic.PieRowsCounts | logAnalysis/dash_components/referrer_pie.py:48-50 | one row per listed platform that occurs, each with its positive count |
| Traffic.PieRowsOrder | logAnalysis/dash_components/referrer_pie.py:48-50 | rows come in the order of the listed platforms |
| Traffic.PieTotal | logAnalysis/dash_components/referrer_pie.py:48-50 | platform counts plus the uncategorised count equal all records |
| Traffic.PieOrderFacts | logAnalysis/dash_components/referrer_pie.py:48-50 | the three platforms are listed once each in ascending order, and the policy yields only them |
| Traffic.ReferrerCountsEmpty | logAnalysis/dash_components/referrer_pie.py:45-46 | the per-referrer table is empty exactly without records |
| Ratios.PercentBounds | logAnalysis/dash_components/sales_dashboard.py:570 | a part of a whole is 0..100 percent of it, 100 exactly when it is all, 0 exactly when it is none |
| Ratios.MeanBetween | logAnalysis/dash_components/refferer_chart.py:71 | a mean of values within bounds lies within them |
| Ratios.MeanAtMost | logAnalysis/dash_components/profit_gauge.py:57 | the mean of a positive total is positive and at most the total |
| Ratios.MeanOfGroups | logAnalysis/dash_components/profit_gauge.py:57 | the mean of grouped positive amounts is the total over the number of groups, positive and at most the total |
| Grouping.GroupByKeyFacts | logAnalysis/dash_components/peak_hours.py:21-27 | ORM grouping by an integer key: ascending, one row per key that occurs and no other, each key's sum, total kept |
| Grouping.CountByKeyFacts | logAnalysis/dash_components/peak_hours.py:21-27 | counting by key: ascending, one row per occurring key, each with its positive count, counts adding up to the keys, empty exactly for no keys |
| Grouping.GroupFirstFacts | logAnalysis/dash_components/sales_by_country.py:74 | `groupby().sum()`: each occurring key once and no other, each with its sum, total kept |
| Grouping.RankedGroupsFacts | logAnalysis/dash_components/sales_by_product.py:76-77 | grouped and sorted descending: largest first, each key once with its sum, total kept |
| Grouping.SortDescending | logAnalysis/dash_components/sales_by_product.py:77 | sorting by amount gives a descending permutation of the rows |
| Grouping.SortDescendingStable | logAnalysis/dash_components/sales_by_product.py:77 | rows of equal amount keep their input order |
| Grouping.SortDescendingTotal | logAnalysis/dash_components/sales_by_product.py:77 | sorting keeps the total |
| Grouping.MostCommonRows | logAnalysis/dash_components/overiew_dashboard.py:238-239 | `most_common(n)`: at most n values, largest first, none twice, each with its count |
| Grouping.MostCommonCut | logAnalysis/dash_components/overiew_dashboard.py:238-239 | a value left out occurs no more often than any listed one, and with fewer than n listed none is left out |
| Grouping.MostCommonTies | logAnalysis/dash_components/overiew_dashboard.py:238-239 | values with equal counts keep their first-occurrence order |

## Left out

- Plotly and Dash are not modelled. Figure construction, layouts, colours, gauge bands and pie pull arrays are presentation only. The profit gauge's bar colour (`ProfitGauge.BarColour`) is the one styling rule kept.
- BounceRate.BounceRateOf: the gauge's displayed value subtracts 60 (`logAnalysis/dash_components/bounce_rate.py:47`) and takes its bar colour from line 43. These are display offsets; the model states the rate itself.
- `create_monthly_revenue_chart` (`logAnalysis/dash_components/sales_dashboard.py:131` onward) is not modelled. It repeats the grouping facts proved for the other sales charts.
- Also presentation or invented data, not modelled:
  - the random employee table (`sales_dashboard.py:325-340`);
  - the hard-coded per-country bounce rates (`sales_dashboard.py:500-509`);
  - the styling of the virtual-assistant and visitor gauges.
- `daily_visitors.py` and `sales_model.py` are not part of this model. The first is a duplicate visitor count; the second is a machine-learning forecast.
- Also not part of this model: `dropdown_app.py`, `shared_filters.py`, `WebAnalysisTool/dropdown_metric.py`, `urls.py`, `scripts.js` and `logAnalysis/dash_apps.py`. They route URLs, build widgets or run client-side code. (The per-day log chart of `dash_app/dash_apps.py` is modelled, by `DailyLogs`.)
- `create_country_dropdown` (`sales_by_product.py:26-39`) only builds widget options.
- Grouping.GroupFirstFacts: pandas `groupby` sorts its keys ascending. The model groups in first-occurrence order and states no order for the groups; their contents and totals are stated.
- SalesDashboard.ProfitShareFacts: pandas orders the profit-share products ascending by name (`groupby('product')`, `sales_dashboard.py:253`). The lemma states no order for the slices; it states which products appear and what share each one gets.
- SalesByCountry.TargetTableFacts: pandas orders the countries ascending by name (`groupby('country')`, `sales_by_country.py:74`). The lemma states no order for the bars, only which countries appear, their sums and targets.
- Grouping.SortDescending: pandas' default quicksort and the database's `order_by` leave the order of ties unspecified. The model sorts stably, which is one of the permitted orders.
- LogFormat.Parse takes each lazy group up to the first delimiter able to end it. It does not backtrack to a later `] "`, `?` or version marker when that first choice fails later on the line, as the regular-expression engine would. `\d`, `\w` and `\s` are ASCII only.
- The ORM, HTTP handling, `FileSystemStorage`, redirects and the `messages` framework are abstracted. The upload becomes a sequence of lines.
  - A failing `ServerLog.objects.create` is not modelled: the model's records always fit.
  - The outer exception message (`logAnalysis/views.py:132-133`) is not modelled: reading the file cannot fail in the model.
- `CharField` length limits (for example a `promo_code` of at most 20 characters) are not enforced. The database would reject longer values; the model stores them.
- `generate_logs` and `stream_logs` (`logAnalysis/views.py:16-28`) produce or stream demo data. They are I/O.
- Not modelled in `sales_trend.py:129-147`: the `dcc.Store` JSON round trip and the diagnostic `print` calls. Charts read the rows directly.
- Scope.ScopeOf: `int(year)` is modelled only for ASCII digits with an optional leading `-`, which is the form the year dropdown sends. Python's `int()` also accepts a leading `+`, surrounding whitespace and `_` between digits; the model gives `None` for those.
- Timestamps.ParseTimestamp: a timestamp keeps its wall-clock fields and its UTC offset (in microseconds). No timezone conversion is done. `ExtractHour`, `TruncDay` and `timestamp__year` run on those wall-clock fields, whereas the database would convert them to the server's zone. The same holds for the datetimes Python handles unconverted: the weekday names from `strftime('%A')` (`overiew_dashboard.py:278-281`), the day and ISO week from `date()` and `isocalendar()` (`sales_trend.py:64-66`), the month from `strftime('%b')` (`sales_dashboard.py:136-137`) and the Monday-started week from `dt.to_period("W")` (`refferer_chart.py:68`) are all taken from the wall-clock fields as stored.
- Floating-point arithmetic becomes exact arithmetic on `real`. Rounding in percentages and means is not modelled.
- WeeklyProfit.WeeklyAverage keeps each week's Monday as a day number (`Calendar.Ordinal`), not as a pandas `Timestamp`.
- Ingest.IngestLine: malformed lines are not counted as rejected, because the code does not count them (see "Behaviour of the code worth knowing").

## Findings

| source | as written | input that shows it | evidently intended | confidence | as-written member | corrected member |
|---|---|---|---|---|---|---|
| logAnalysis/dash_components/sales_trend.py:65-66 | the `year` column is `date().year`, the calendar year, while the `week` column is `isocalendar()[1]`, the ISO week | 2024-12-30 is in ISO week 1 of 2025 and 2024-01-01 is in ISO week 1 of 2024; both are labelled `2024-W01`, and their sales are summed into one bar | pair the ISO week with the ISO year `isocalendar()[0]`, so a key names one Monday-to-Sunday week | not executed | SalesTrend.CalendarYearMergesWeeks | SalesTrend.IsoKeyIsWeek |

`SalesTrend.TrendChartAsWritten` builds the weekly table with the calendar
year, as the code does. `SalesTrend.TrendChart` uses the ISO year.
`SalesTrend.WeeklyTableFacts` holds for both year rules.
