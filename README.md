# Marketing dashboard and portfolio scripts, modelled in Dafny

This project models the logic of two browser scripts:

- **`marketing_dashboard.js`** loads a customer file and turns its text into customer objects. `parseCSV` does the split, and `processData` adds the derived metrics and the spending tier to every customer. `applyFilters` and `resetFilters` keep a filtered view of the customers. Over that view the script computes:
  - the KPIs, in `calculateKPIs`;
  - the ROAS indicator;
  - the selector options;
  - the per-label counts its charts draw.
- **`portfolio/script.js`** has three pieces of logic:
  - the typewriter effect, a four-variable state machine advanced by one step per timer tick;
  - the contact form's field and email checks;
  - the range test that decides which navigation link is active.

The modules are:

| file | module | what it holds |
|---|---|---|
| `text.dfy` | `Text` | The JavaScript string behaviour both scripts rely on: the white-space class of `trim` and `\s`, `trim`, `split` on one character, and the default string order of `sort`. |
| `csv.dfy` | `Csv` | Customer records, `parseFloat(v) \|\| 0` restricted to decimal numerals, and `parseCSV`, whose row-filling loop is a method proved against a function. |
| `segmentation.dfy` | `Segmentation` | The derivation of `processData` and the four spending tiers. |
| `filters.dfy` | `Filters` | The three-way filter and the selector option lists. |
| `aggregates.dfy` | `Aggregates` | The KPIs, the ROAS band, the chart totals and the segment counts. |
| `tallies.dfy` | `Tallies` | The dictionary counting loops of the geography, education and acquisition charts. |
| `dashboard.dfy` | `Dashboard` | The state class holding `rawData` and `filteredData`. |
| `typewriter.dfy` | `Typewriter` | The step function, its invariant and its cycle, plus a class with the page's variables. |
| `contact.dfy` | `Contact` | The email pattern, the address test proved equal to it, and the submit outcome. |
| `navigation.dfy` | `Navigation` | The section range test and the highlighting loop. |
| `wrappers.dfy` | `Wrappers` | `Option`. |

Numbers are `real`, so no floating-point rounding is modelled. A customer is a map from field name to `Num(real)`, `Str(string)` or `NaN`. The only `NaN` is the `Age` of a customer without a birth year.

## Model

| member | source | states |
|---|---|---|
| `Text.TrimSpec` | marketing_dashboard.js:74-75 | What `trim` keeps is one slice of the input that neither starts nor ends with white space, and everything cut away on both sides is white space. |
| `Text.Trim` | marketing_dashboard.js:74-75 | `trim` never makes a text longer; what it keeps is stated by `Text.TrimSpec`. |
| `Text.TrimIdempotent` | marketing_dashboard.js:82 | Trimming a trimmed value changes nothing. |
| `Text.Split` | marketing_dashboard.js:74-78 | `split` on one character gives one more piece than the text has separators, no piece contains the separator, and joining the pieces gives back the text. |
| `Text.SplitJoin` | marketing_dashboard.js:74 | Splitting undoes joining pieces that do not contain the separator. |
| `Text.LessTotal` | marketing_dashboard.js:124-125 | The default string order relates any two different strings one way. |
| `Text.LessAsymmetric` | marketing_dashboard.js:124-125 | The default string order never relates two strings both ways. |
| `Text.LessTransitive` | marketing_dashboard.js:124-125 | The default string order is transitive. |
| `Text.SortStrings` | marketing_dashboard.js:124-125 | `sort()` on strings returns a permutation of its input that is ascending in the default order. |
| `Text.SortedDistinctStrict` | marketing_dashboard.js:124-125 | A sorted list without repetitions is strictly ascending. |
| `Csv.ParseFloat` | marketing_dashboard.js:91 | In the decimal-only reading of `parseFloat` (see Left out), a text that is empty, or starts with anything but a digit, `.`, `-` or `+`, is not a number. |
| `Csv.Coerce` | marketing_dashboard.js:91 | `parseFloat(v) \|\| 0` is the number `parseFloat` reads, or 0 when it reads none. |
| `Csv.ParseFloatDecimal` | marketing_dashboard.js:91 | `parseFloat` reads back the decimal numeral of any natural number, whatever non-numeral text follows it. |
| `Csv.ParseFloatNegative` | marketing_dashboard.js:91 | `parseFloat` reads a minus sign followed by a decimal numeral as its negation. |
| `Csv.CoerceNoNumeral` | marketing_dashboard.js:82-91 | A numeric field is stored as 0 when its value is empty or starts with something other than a digit, `.`, `-` or `+`. The same holds for a `.` not followed by a digit, and for a sign followed by neither a digit nor a `.`. |
| `Csv.Cell` | marketing_dashboard.js:82-91 | The stored value is a number exactly for a numeric field and text otherwise. Past the end of a short line it is 0 or `''`. |
| `Csv.RowFromKeys` | marketing_dashboard.js:81-94 | After the first n columns are stored, the row has exactly the first n header names as fields. |
| `Csv.RowFromValues` | marketing_dashboard.js:81-94 | A column whose name no later header repeats keeps that column's converted value. |
| `Csv.RowFromWellTyped` | marketing_dashboard.js:82-94 | Every stored value is a number for a numeric field and text otherwise, never `NaN`. |
| `Csv.FillRow` | marketing_dashboard.js:78-95 | The header loop builds exactly the row that storing every converted column in header order gives. |
| `Csv.Lines` | marketing_dashboard.js:74 | The trimmed text splits into one more line than it has line breaks, and no line contains a line break. |
| `Csv.Headers` | marketing_dashboard.js:75 | The header line gives one name per comma-separated piece. |
| `Csv.ParseCsv` | marketing_dashboard.js:73-77 | Parsing yields one record per line after the header line. |
| `Csv.ParseRows` | marketing_dashboard.js:73-99 | The line-by-line parse that calls `FillRow` yields exactly the `ParseCsv` records, in line order. |
| `Csv.ParseCsvCount` | marketing_dashboard.js:74-77 | Parsed text with L lines after trimming yields L-1 records, one per line break. |
| `Csv.ParseCsvAt` | marketing_dashboard.js:77-98 | Record i is built from line i+1 split at commas, so the records keep line order. |
| `Csv.ParseCsvKeys` | marketing_dashboard.js:75-95 | Every record has exactly the trimmed header names as its fields. |
| `Csv.ParseCsvValue` | marketing_dashboard.js:78-94 | The field of a header that is not repeated later holds that column's trimmed value, `''` for a short line, converted when the field is numeric. |
| `Csv.ParseCsvWellTyped` | marketing_dashboard.js:82-94 | No parsed record holds `NaN`: numeric fields are numbers and the others text. |
| `Segmentation.SegmentOf` | marketing_dashboard.js:115-118 | Each of the four tiers holds exactly when the spending lies in its band, and every band includes its lower bound. |
| `Segmentation.SegmentMonotone` | marketing_dashboard.js:115-118 | More spending never gives a lower tier. |
| `Segmentation.LabelInjective` | marketing_dashboard.js:115-118 | Two tiers have the same label only if they are the same tier. |
| `Segmentation.Derive` | marketing_dashboard.js:101-119 | The derivation adds exactly the five derived fields and leaves every other field as parsed. |
| `Segmentation.DeriveReadsRawFields` | marketing_dashboard.js:104-112 | Age and the three sums read only fields the derivation does not write. |
| `Segmentation.DeriveIsDerived` | marketing_dashboard.js:104-118 | A derived customer has `Age` = 2025 minus the birth year, the six-product spending, the web, catalog and store purchase count, the six-flag acceptance count, and the label of its tier. |
| `Segmentation.DeriveIdempotent` | marketing_dashboard.js:101-119 | Deriving a derived customer again changes nothing. |
| `Segmentation.DeriveAll` | marketing_dashboard.js:102-119 | `processData` keeps one record per customer, each with its parsed fields plus the five derived fields. |
| `Segmentation.DeriveAllIsDerived` | marketing_dashboard.js:102-119 | After `processData` every customer carries consistent derived fields. |
| `Segmentation.DerivedSegment` | marketing_dashboard.js:115-118 | A derived customer's `Segment` is the label of the tier of its `TotalSpending`. |
| `Segmentation.DeriveExample` | marketing_dashboard.js:104-118 | A row born in 1980 with 200 of wine gets Age 45, spending 200 and the Medium Value tier. |
| `Filters.KeepCount` | marketing_dashboard.js:148 | `filter` keeps each element that passes as often as it occurs, and no other element. |
| `Filters.KeepSubsequence` | marketing_dashboard.js:148 | `filter` returns a subsequence of its input, in input order. |
| `Filters.KeepMembers` | marketing_dashboard.js:148 | `filter` keeps only elements of its input that pass the test. |
| `Filters.KeepAllIn` | marketing_dashboard.js:148 | When every element passes, `filter` returns its whole input. |
| `Filters.KeepNoneIn` | marketing_dashboard.js:148 | When no element passes, `filter` returns an empty list. |
| `Filters.Matches` | marketing_dashboard.js:149-151 | Every customer matches when all three selectors are `'all'`. A matching customer has the selected value in every field whose selector is not `'all'`. |
| `Filters.FilterRecords` | marketing_dashboard.js:148-152 | The view is never longer than the customer list, and holds only customers of the list that match the selectors. |
| `Filters.FilterSpec` | marketing_dashboard.js:148-152 | The filtered view is the order-preserving subsequence of the customers matching every selector that is not `'all'`, with the matching customers kept as often as they occur. |
| `Filters.FilterNoConstraint` | marketing_dashboard.js:149-151 | With every selector on `'all'`, filtering keeps the whole list. |
| `Filters.FilterIdempotent` | marketing_dashboard.js:148-152 | Filtering the filtered view again with the same selectors changes nothing. |
| `Filters.FilterCompose` | marketing_dashboard.js:149-151 | Two compatible filterings in a row equal one filtering by both, in either order. |
| `Filters.FilterOneFieldAtATime` | marketing_dashboard.js:149-151 | Applying the country, education and segment tests one at a time gives the same view. |
| `Filters.Distinct` | marketing_dashboard.js:124-125 | `[...new Set(xs)]` holds every value of `xs` exactly once. |
| `Filters.NonEmpty` | marketing_dashboard.js:124-125 | `filter(Boolean)` drops every empty string and keeps the rest with their counts. |
| `Filters.SelectorOptions` | marketing_dashboard.js:124-125 | The option list is in ascending string order and never holds an empty value. |
| `Filters.SelectorOptionsSpec` | marketing_dashboard.js:124-125 | The options are exactly the non-empty values some customer has, each listed once, in strictly ascending order. |
| `Aggregates.Ratio` | marketing_dashboard.js:176-178 | A guarded ratio is 0 when its denominator is not positive, and otherwise gives back the numerator when multiplied by the denominator. |
| `Aggregates.CampaignRevenue` | marketing_dashboard.js:172-174 | When every customer of the view accepted some campaign, the campaign revenue is the whole revenue. When none did, it is 0. |
| `Aggregates.SuccessRateAsWritten` | marketing_dashboard.js:180-181 | The unguarded success rate is undefined (`NaN`) exactly on an empty view, and otherwise is the acceptances over six times the count. |
| `Aggregates.SuccessRateAsWrittenEmpty` | marketing_dashboard.js:176-181 | On an empty view the success rate as written is `NaN`, while the guarded ratios are 0. |
| `Aggregates.SuccessRate` | marketing_dashboard.js:180-181 | The guarded success rate agrees with the one as written on every non-empty view and is 0 on the empty one. |
| `Aggregates.CalculateKpis` | marketing_dashboard.js:166-191 | The customer count is the view's length and the revenue its total spending. The estimated cost is 10 per customer. ROAS, lifetime value, success rate and average order value are their quotients, or 0 when the denominator is 0. The success rate is the corrected one (see Findings). |
| `Aggregates.EmptyViewKpis` | marketing_dashboard.js:166-191 | An empty view gives zero customers, zero revenue and every ratio 0, the success rate being the corrected one. |
| `Aggregates.BandOf` | marketing_dashboard.js:205-214 | The indicator is Excellent exactly from 3, Good exactly from 2 to below 3, and Needs Improvement exactly below 2. |
| `Aggregates.BandText` | marketing_dashboard.js:205-214 | The indicator text starts with the rocket exactly for Excellent, with the rising chart exactly for Good, and with the warning sign exactly for Needs Improvement. |
| `Aggregates.BandClass` | marketing_dashboard.js:205-214 | The class is `kpi-change` followed by `positive` exactly for Excellent, `neutral` exactly for Good, and `negative` exactly for Needs Improvement. |
| `Aggregates.EmptyViewBand` | marketing_dashboard.js:205-214 | An empty view shows the lowest band with the negative class. |
| `Aggregates.ParsedHasNumbers` | marketing_dashboard.js:85-94 | Every customer derived from a file whose header line names some numeric columns holds a number in each of them. |
| `Aggregates.RevenueIsProductTotal` | marketing_dashboard.js:381-386 | Over derived customers that all hold the six product columns, the revenue KPI equals the sum of the six product bars. |
| `Aggregates.PurchasesAreChannelTotal` | marketing_dashboard.js:331-333 | Over derived customers that all hold the three channel columns, the purchase count equals the web, catalog and store totals added. |
| `Aggregates.AcceptancesAreCampaignTotal` | marketing_dashboard.js:180 | Over derived customers, the acceptance count equals the six campaign totals added. |
| `Aggregates.CountSegment` | marketing_dashboard.js:289-294 | A tier's count is the length of `filter` on its label. It is the whole view when every customer has the label and 0 when none has. |
| `Aggregates.SegmentCounts` | marketing_dashboard.js:289-294 | The chart has four counts, one per tier in chart order, each the number of customers with that tier's label. |
| `Aggregates.DerivedHasOneSegment` | marketing_dashboard.js:115-118 | A derived customer has a tier's label exactly when that tier is the one its spending gives. |
| `Aggregates.SegmentCountsPartition` | marketing_dashboard.js:289-294 | Over derived customers, the four segment counts add up to the number of customers. |
| `Aggregates.AllLowValue` | marketing_dashboard.js:289-294 | When every customer spent under 100, the three upper counts are 0 and Low Value has everyone. |
| `Tallies.CountKeys` | marketing_dashboard.js:466-471 | The counting loop builds the dictionary and key order that `TallyOf` specifies. |
| `Tallies.TallyOf` | marketing_dashboard.js:466-471 | The dictionary never holds the empty key, and its key order lists only keys the dictionary holds. |
| `Tallies.TallyCounts` | marketing_dashboard.js:466-471 | The dictionary holds exactly the non-empty keys, each counted as often as it occurs. |
| `Tallies.TallyOrder` | marketing_dashboard.js:505-509 | The dictionary's key order lists each of its keys once. |
| `Tallies.TallySum` | marketing_dashboard.js:548-553 | The counts add up to the number of customers with a non-empty key. |
| `Tallies.GeoChartCounts` | marketing_dashboard.js:466-471 | The geography chart counts exactly the non-empty countries some customer of the view has. Its counts add up to the customers with a country. |
| `Tallies.EducationChartCounts` | marketing_dashboard.js:505-509 | The education chart counts exactly the non-empty levels some customer of the view has. Its counts add up to the customers with a level. |
| `Tallies.Month` | marketing_dashboard.js:550-551 | The month key is the first 7 characters of the date, or the whole date when it is shorter. It is empty only for an empty date. |
| `Tallies.MonthLabels` | marketing_dashboard.js:555 | The acquisition chart's month labels are in ascending string order. |
| `Tallies.MonthLabelsSpec` | marketing_dashboard.js:548-555 | The acquisition chart lists each month some customer enrolled in exactly once, in strictly ascending order. |
| `Dashboard.DashboardData.constructor` | marketing_dashboard.js:2-3 | Both lists start empty. |
| `Dashboard.DashboardData.LoadData` | marketing_dashboard.js:57-66 | When `fetch` or `response.text()` rejects, nothing changes. When a text arrives, even an HTTP error page, both lists hold its parsed, derived customers, and every one of them carries consistent derived fields. |
| `Dashboard.DashboardData.ProcessData` | marketing_dashboard.js:101-120 | Every customer of the shared list is replaced by its derived record, in both lists. |
| `Dashboard.DashboardData.PopulateFilters` | marketing_dashboard.js:123-131 | The country and education options are the distinct non-empty values of `rawData`, strictly ascending. The segment options are the four tiers. |
| `Dashboard.DashboardData.ApplyFilters` | marketing_dashboard.js:143-155 | `filteredData` becomes the matching subsequence of `rawData`, every element matching the selectors, and `rawData` is unchanged. |
| `Dashboard.DashboardData.ResetFilters` | marketing_dashboard.js:157-163 | The selectors go back to `'all'`, `filteredData` equals `rawData`, which is the all-`'all'` filter, and `rawData` is unchanged. |
| `Typewriter.Substring` | portfolio/script.js:98-102 | `substring(0, n)` returns the first n characters, with n clamped to the string. |
| `Typewriter.Next` | portfolio/script.js:94-115 | After a step the delay is 100 ms for an ordinary typing step, 50 ms for an ordinary deleting step, 2000 ms when typing completes the role and 500 ms when deleting empties it. A typing step adds one character and a deleting step removes one. The phase switches exactly when typing reaches the role's length or deleting reaches 0. The role advances, modulo the role count, only when deleting ends. |
| `Typewriter.Shown` | portfolio/script.js:97-105 | The element shows a prefix of the current role. When the new `charIndex` lies within the role, it is that many characters. |
| `Typewriter.RolesValid` | portfolio/script.js:82-87 | The page's four roles are all non-empty. |
| `Typewriter.StartInv` | portfolio/script.js:89-92 | The declared start values satisfy the invariant. |
| `Typewriter.StepInv` | portfolio/script.js:94-115 | One step keeps the role index in range, the character index in the bounds of its phase, and the delay among the four values. |
| `Typewriter.StepShows` | portfolio/script.js:97-105 | A typing step raises `charIndex` by one and a deleting step lowers it by one. Afterwards the element shows the role's first `charIndex` characters. |
| `Typewriter.PhaseChanges` | portfolio/script.js:107-115 | Typing the last character switches to deleting with the 2000 ms pause. Deleting the first character switches to typing the next role modulo the role count, with the 500 ms pause. No other step changes the phase or the role. |
| `Typewriter.Run` | portfolio/script.js:94-117 | Every state reached by repeated steps from one that keeps the invariant keeps it. |
| `Typewriter.Reachable` | portfolio/script.js:89-117 | From the start state, after any number of steps, the role index is in range, `charIndex` lies between 0 and the role's length, and the delay is 50, 100, 500 or 2000. |
| `Typewriter.RunAdd` | portfolio/script.js:117 | Running a steps and then b steps is running a+b steps. |
| `Typewriter.TypeToEnd` | portfolio/script.js:101-110 | Typing from c characters reaches the full role in length-c steps, and the next step starts deleting. |
| `Typewriter.DeleteToStart` | portfolio/script.js:97-115 | Deleting from c characters empties the element in c steps and moves to the next role. |
| `Typewriter.RoleCycle` | portfolio/script.js:94-117 | A role of length L takes 2L steps from empty to the empty element of the next role. |
| `Typewriter.TypewriterEffect.constructor` | portfolio/script.js:89-92 | The variables start at role 0, character 0, typing, 100 ms. |
| `Typewriter.TypewriterEffect.TypeWriter` | portfolio/script.js:94-115 | The imperative step updates the four variables and the element text as `Next` and `Shown` specify. |
| `Contact.IndexOf` | portfolio/script.js:172 | The first `@` lies at the returned position, with none before it. |
| `Contact.EmailPattern` | portfolio/script.js:172 | An address the regular expression matches has at least 5 characters and contains an `@`. |
| `Contact.IsValidEmail` | portfolio/script.js:172-173 | An accepted address has at least one character before its first `@` and at least three after it. |
| `Contact.EmailSpec` | portfolio/script.js:172-173 | An address passes the check exactly when it matches `^[^\s@]+@[^\s@]+\.[^\s@]+$`: no white space, exactly one `@`, something before it, and after it a `.` that is neither first nor last. |
| `Contact.EmailAccepted` | portfolio/script.js:172-173 | `a@b.c` is accepted. |
| `Contact.EmailRefused` | portfolio/script.js:172-173 | An address with nothing before the `@`, with a space, or with no `.` after the `@` is refused. |
| `Contact.Submit` | portfolio/script.js:160-180 | An empty field is reported before any email check. A filled form with a non-matching address is refused. Otherwise the message is sent. |
| `Navigation.InView` | portfolio/script.js:47-52 | Only a section of positive height can be in view. |
| `Navigation.LastInView` | portfolio/script.js:46-58 | The result is the last section whose band holds the scroll position, or none when no band does. |
| `Navigation.InViewUnique` | portfolio/script.js:48-52 | When the sections tile the page, at most one is in view at any scroll position. |
| `Navigation.NavBar.HighlightNavigation` | portfolio/script.js:43-59 | After the handler, the link of the last section in view is the only active one, or none is active if that section has no link. With no section in view nothing changes. |
| `Navigation.TiledHighlight` | portfolio/script.js:48-56 | With tiled sections, the section in view is the one the handler activates. |

## Left out

- The `fetch` of `loadData` and its `catch`, with the `console.error` and `alert` there, are not modelled. The fetched text is a parameter. `None` models only a rejected `fetch` or `response.text()`. An HTTP error status still resolves, so its body arrives as `Some(body)` and is parsed. An exception thrown later, in `populateFilters` or `updateDashboard`, comes after both lists were assigned. That case is not modelled.
- `updateDashboard` and every drawing call are left out, as are `populateSelect` and the DOM reads. The selector values are parameters, and the option lists are results.
- Chart.js, `toLocaleString` and `toFixed` formatting, and the percentage charts are rendering.
- The scatter chart is left out. It reads a field name with a trailing space that trimmed headers never have.
- The country chart's sort by count is left out. So are the `insights` panels.
- Numbers are `real`. IEEE rounding, infinities and `-0` are not modelled.
- `Csv.ParseFloat`: `parseFloat` is modelled for a sign, digits and an optional fraction only. Exponents and `Infinity` in the data file are not modelled; `Infinity` reads as no number here.
- `Csv.Coerce`: follows that decimal-only reading, so `parseFloat(v) || 0` of an exponent numeral or of `Infinity` differs from JavaScript's.
- `Csv.ParseFloatDecimal`: a suffix such as `e5` after the digits is read as trailing text, not as an exponent.
- `Csv.ParseFloatNegative`: exponents are not modelled, so `-1e5` reads as -1 here, where JavaScript gives -100000.
- `Csv.CoerceNoNumeral`: `Infinity`, signed or not, is stored as 0 here, where JavaScript's `parseFloat` gives an infinity.
- The default sort order compares Unicode code points, not UTF-16 code units. The two differ only for characters above U+FFFF.
- `Tallies.TallyCounts`: the count objects are plain `{}` objects, which inherit from `Object.prototype`. In the source a key named after an inherited member, such as `constructor`, starts from that member instead of 0, so its count becomes a string, and `__proto__` never becomes a key. The model treats the objects as plain dictionaries, and so do `Tallies.TallyOf`, `Tallies.CountKeys`, `Tallies.GeoChartCounts` and `Tallies.EducationChartCounts`.
- `Csv.RowFrom`: a header named `__proto__` is dropped in the source. Its value is always a string, since `__proto__` is not a numeric field, and the `__proto__` setter ignores a value that is not an object, so the row gets no such field. The model stores it as a field, and `Csv.ParseCsvKeys` counts it among the keys.
- `Aggregates.RevenueIsProductTotal`: the product chart sums `c.MntWines` and the other five columns without `|| 0`. When a column is missing from the file, its bar is `NaN` in the source, so the lemma requires every customer to hold all six (`Aggregates.ParsedHasNumbers` gives that for a file whose header names them).
- `Aggregates.PurchasesAreChannelTotal`: the channel chart sums its three columns without `|| 0`, so the lemma likewise requires every customer to hold all three.
- `Tallies.TallyOrder`: JavaScript lists integer-like object keys first, in numeric order. The model keeps plain insertion order, which is what the chart labels get for the file's text values.
- `Aggregates.CalculateKpis` uses the corrected success rate, which is 0 on an empty view. The source computes `NaN` there (marketing_dashboard.js:181); `Aggregates.SuccessRateAsWritten` models that, as listed under Findings.
- `Aggregates.EmptyViewKpis` states the corrected success rate of 0. The source's rate on an empty view is `NaN`, as `Aggregates.SuccessRateAsWrittenEmpty` states.
- `Aggregates.CalculateKpis` reads an absent `TotalSpending`, `TotalPurchases` or `CampaignAcceptances` as 0. The source reads all three without `|| 0` (marketing_dashboard.js:168-169, 173, 180) and would get `NaN` there, but after `processData` the three fields are always present.
- `Filters.FieldText` treats a non-text field as empty. `Country` and `Education` are never numeric fields, so parsed records always hold text there.
- `Dashboard.DashboardData.ProcessData` requires the two lists to be equal. In the source they share the same objects after the copy in `loadData`, its only caller. Object aliasing in general is not modelled.
- `Typewriter.TypewriterEffect.TypeWriter`: rescheduling with `setTimeout` is left to the caller. Time is not modelled.
- The rest of `portfolio/script.js` is timers and browser effects: the menu, smooth scrolling, navbar styling, the `IntersectionObserver`, the canvas placeholders, parallax and `debounce`. The `alert` and `reset` of the form are left out too.
- `portfolio/update_cv.py` is not part of this model. It edits a file with fixed regular-expression substitutions.

## Findings

| source | as written | input that shows it | evidently intended | confidence | as-written member | corrected member |
|---|---|---|---|---|---|---|
| marketing_dashboard.js:181 | `campaignSuccessRate = totalCampaignAcceptances / (totalCustomers * 6)` has no zero guard. | An empty filtered view (selectors no customer matches) gives 0 / 0, so the success KPI shows `NaN%`. | 0, like the three guarded ratios next to it. | not executed | `Aggregates.SuccessRateAsWritten` | `Aggregates.SuccessRate` |

The `Age` derivation at marketing_dashboard.js:104 has no `|| 0` default. A record without `Year_Birth` therefore gets `NaN`, and the model follows the code here (`Segmentation.DeriveIsDerived`).
