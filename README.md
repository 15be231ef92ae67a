# whatsthemeta scraping core, modelled in Dafny

This project models the data-acquisition core of a small Final Fantasy XIV
dashboard. The dashboard asks a server-side handler for the statistics of a
raid zone (65 or 68), optionally narrowed to one boss. The handler drives a
headless browser to the FFLogs statistics page and reads the table rows into
`{job, score, count}` records. `groupJobs` then buckets those records into the
five role groups melee, caster, ranged, tank and healer. The page shows each
group with a best-job bar chart and a popularity pie.

Two handlers share this logic:

- `api/fflogs.js` is a serverless handler with a `try`/`catch`/`finally` teardown.
- `src/app/api/fflogs/route.ts` is a Next.js `GET` route. It closes the browser
  inside `try` (line 93), and closes it in `catch` (a second time if line 93
  already ran), unguarded.

`src/app/page.tsx` holds the integer helpers of the page.

Modules, one per file:

- `wrappers.dfy` (`Wrappers`): `Option`.
- `js_strings.dfy` (`JsStrings`): these JavaScript string operations:
  - `trim`, `trimStart` and `trimEnd`, over the ECMAScript whitespace set
  - `toLowerCase`
  - `includes`
  - `replace(/,/g, '')`
- `js_numbers.dfy` (`JsNumbers`): JavaScript `parseInt` with no radix, and the
  template-literal text of an integer.
- `roles.dfy` (`Roles`): `GROUPS` and `groupJobs`. This code is the same in
  both handlers, so it is modelled once:
  - `GroupJobs` is the specification function.
  - `GroupJobsByScan` is the nested `for`/`push`/`break` loop, proved equal to
    `GroupJobs`.
- `scrape.dfy` (`Scrape`): the pure parts shared by both handlers:
  - the zone check
  - the statistics URL
  - row extraction and the empty-job filter
  - the `zoneName` fallback
  - the JSON response shapes
- `session.dfy` (`Session`): the browser session as the handler sees it.
  - Each awaited call either completes or throws.
  - An `Env` fixes every outcome of one request up front.
  - A handler records the browser calls it makes as a trace of `Effect`s.
- `api_handler.dfy` (`ApiHandler`): the serverless handler as an imperative
  method. It assigns `browser` and `page` step by step, answers 500 on the
  first throw, and runs the `finally` teardown.
- `route_handler.dfy` (`RouteHandler`): the Next.js `GET` route, both as
  written and with its `catch` close guarded (see Findings).
- `dashboard.dfy` (`Dashboard`): the page helpers:
  - comma-stripped count parsing and the pie total and shares
  - `isBossPage` and `maxBossScore`
  - the boss-mode best-job `reduce`
  - the bar label
  - the colour and heading lookups
  - the fetch URL
  - `getZoneName` and the page heading

Behaviour of the code worth noting:

- The teardown closes the page and the browser only if each was created, not
  unconditionally.
- The `GET` route never closes its page.
- The `GET` route can surface a close error (the Finding below).
- The zone is read with JavaScript's `parseInt`. With no radix, `parseInt`
  switches to base 16 after a `0x` prefix, so `"0x44"` is accepted as zone 68
  (`Scrape.HexZoneAccepted`). A text such as `"68x"` is accepted by its numeric
  prefix.
- `reaper` has a colour on the page but appears in no group list, so Reaper
  rows are dropped by both handlers (`Roles.ReaperIsDropped`).

## Model

| member | source | states |
|---|---|---|
| Roles.GroupJobs | src/app/api/fflogs/route.ts:12-30 | the result always has exactly the five keys melee, caster, ranged, tank, healer, whatever the input |
| Roles.GroupJobsByScan | api/fflogs.js:12-30 | the nested scan (the first list holding the trimmed, lower-cased name gets the record pushed, then `break`) returns exactly `GroupJobs(jobs)` |
| Roles.GroupJobsMembers | src/app/api/fflogs/route.ts:20-28 | a record is in group `g` exactly when it is in the input and classified into `g`, so unknown jobs are in no group |
| Roles.GroupJobsSnoc | src/app/api/fflogs/route.ts:20-27 | one more record pushes it at the end of the group it is classified into and changes nothing else; an unrecognised record changes nothing |
| Roles.GroupJobsSnocSome | src/app/api/fflogs/route.ts:22-25 | a recognised record is appended to its own group only |
| Roles.GroupJobsSnocNone | src/app/api/fflogs/route.ts:22-27 | a record no list names leaves every group as it was |
| Roles.GroupOf | src/app/api/fflogs/route.ts:21-27 | a job is assigned, if at all, to one of the five result keys (which key is stated by `GroupOfExactly`) |
| Roles.GroupKeysAgree | src/app/api/fflogs/route.ts:4-19 | the key order, the table of job lists and the key set name the same five groups, in the same order |
| Roles.TableDisjoint | src/app/api/fflogs/route.ts:4-10 | the five name lists are pairwise disjoint |
| Roles.NamesDistinct | src/app/api/fflogs/route.ts:4-10 | the five group names are distinct |
| Roles.FirstGroupFromMember | src/app/api/fflogs/route.ts:22-26 | scanning from any earlier list finds the list that holds the key |
| Roles.FirstGroupFromNone | src/app/api/fflogs/route.ts:22-27 | a key held by no remaining list finds no group |
| Roles.FirstGroupExactly | src/app/api/fflogs/route.ts:22-27 | the first list holding a key is the only list holding it; no group exactly when no list holds it |
| Roles.GroupOfExactly | src/app/api/fflogs/route.ts:21-27 | a job lands in group `g` exactly when `g`'s list names its trimmed, lower-cased name, and in no group exactly when no list does |
| Roles.GroupOfIgnoresCaseAndSpace | src/app/api/fflogs/route.ts:21 | classification ignores letter case and surrounding whitespace |
| Roles.BucketMembers | src/app/api/fflogs/route.ts:20-28 | a group's records are exactly the input records classified into it |
| Roles.BucketAppend | src/app/api/fflogs/route.ts:20-28 | relative input order is kept within each group |
| Roles.BucketCounts | src/app/api/fflogs/route.ts:24 | records are pushed unchanged and never merged or deduplicated: each occurs in its group as often as in the input |
| Roles.GroupSizes | src/app/api/fflogs/route.ts:20-28 | the group lengths add up to the number of recognised input records |
| Roles.ClassifiesPaddedDragoon | src/app/api/fflogs/route.ts:21-25 | "Dragoon" with any surrounding whitespace is melee |
| Roles.ClassifiesDragoon | src/app/api/fflogs/route.ts:5 | "dragoon" is melee |
| Roles.ClassifiesUpperSage | src/app/api/fflogs/route.ts:9 | "SAGE" is healer |
| Roles.MeleeThenHealer | api/fflogs.js:13-29 | a melee record then a healer record: each is alone in its group and the other three are empty |
| Roles.ReaperIsDropped | api/fflogs.js:4-10 | "Reaper" is in no group |
| JsStrings.TrimStartSpec | src/app/api/fflogs/route.ts:71 | `trimStart` drops a whitespace-only prefix and stops at the first other character |
| JsStrings.TrimEndSpec | src/app/api/fflogs/route.ts:71 | `trimEnd` drops a whitespace-only suffix and stops at the last other character |
| JsStrings.TrimSpec | src/app/api/fflogs/route.ts:71-73 | `trim` returns `s` minus whitespace-only ends |
| JsStrings.Trim | src/app/api/fflogs/route.ts:71-73 | the trimmed text is no longer than the input and neither starts nor ends with whitespace |
| JsStrings.LowerChar | src/app/api/fflogs/route.ts:21 | a lower-cased character is never an ASCII capital and is whitespace exactly when the input was |
| JsStrings.Lower | src/app/api/fflogs/route.ts:21 | `toLowerCase` keeps the length |
| JsStrings.Includes | src/app/page.tsx:184 | `includes` holds exactly when the needle stands at some position |
| JsStrings.RemoveCommas | src/app/page.tsx:63 | the result has no comma and is no longer than the input |
| JsStrings.LowerTrim | src/app/api/fflogs/route.ts:21 | lower-casing and trimming commute |
| JsStrings.TrimLowerIgnoresCase | src/app/api/fflogs/route.ts:21 | texts equal up to case have the same lookup key |
| JsStrings.TrimPadded | src/app/api/fflogs/route.ts:21 | surrounding whitespace does not change `trim` |
| JsStrings.TrimStartPadded | src/app/api/fflogs/route.ts:41 | a whitespace prefix does not change `trimStart` |
| JsStrings.IncludesMiddle | src/app/page.tsx:184 | a text containing the needle includes it |
| JsStrings.IncludesNeedsFirst | src/app/page.tsx:184 | a text lacking the needle's first character does not include it |
| JsStrings.RemoveCommasAppend | src/app/page.tsx:63 | comma removal distributes over concatenation |
| JsStrings.RemoveCommasNone | src/app/page.tsx:63 | a comma-free text is unchanged |
| JsNumbers.DigitPrefix | src/app/api/fflogs/route.ts:41 | `parseInt` reads the longest run of digits: a prefix made of digits, followed by a non-digit or the end |
| JsNumbers.NatText | src/app/page.tsx:154 | an integer's decimal text is non-empty, all digits, without leading zeros, and has the integer's value |
| JsNumbers.ParseIntText | src/app/api/fflogs/route.ts:41 | `parseInt` reads back the text of any integer, whatever non-digit text follows it |
| JsNumbers.ParseIntNoDigit | src/app/api/fflogs/route.ts:41 | a text that opens with neither whitespace, a sign nor a digit parses to NaN |
| JsNumbers.ParseIntSkipsWhitespace | src/app/api/fflogs/route.ts:41 | leading whitespace is ignored by `parseInt` |
| JsNumbers.ParseInt | src/app/api/fflogs/route.ts:41 | `parseInt` as used on the zone; its properties are the three lemmas above: `ParseIntText`, `ParseIntNoDigit`, `ParseIntSkipsWhitespace` |
| JsNumbers.IntTextInjective | src/app/page.tsx:176 | different integers have different texts |
| JsNumbers.IntText | src/app/page.tsx:154 | the text of an integer is non-empty, all decimal digits for a non-negative number, and a minus sign followed by digits for a negative one |
| Scrape.CheckZone | src/app/api/fflogs/route.ts:37-45 | the zone is missing exactly when it is absent or empty; it is accepted exactly when its `parseInt` is 65 or 68, and then carries that value |
| Scrape.Rejection | src/app/api/fflogs/route.ts:37-45 | a refused zone gets 400; the body reads "Zone parameter is required" exactly when the zone is missing and the invalid-zone message exactly when it parses outside {65, 68} |
| Scrape.PageLabel | src/app/api/fflogs/route.ts:79-91 | the label is the boss title when a boss was asked for and its title is non-blank, otherwise the zone title; it is empty exactly when both are |
| Scrape.ZonePrefixAccepted | src/app/api/fflogs/route.ts:41-43 | "68x" is accepted as zone 68 |
| Scrape.HexZoneAccepted | src/app/api/fflogs/route.ts:41-43 | "0x44" is accepted as zone 68 |
| Scrape.PlainZonesAccepted | api/fflogs.js:40-41 | "68" and "65" are accepted |
| Scrape.NonNumericZoneRejected | api/fflogs.js:40-44 | a non-numeric zone is refused as unsupported |
| Scrape.ZoneTextRoundTrip | api/fflogs.js:40-44 | the text of an integer passes with its own value when it is 65 or 68 and is refused otherwise |
| Scrape.PrefixesDiffer | src/app/api/fflogs/route.ts:48-50 | the two zone URLs differ and have the same length |
| Scrape.TargetUrlRoundTrip | src/app/api/fflogs/route.ts:48-50 | the URL determines the zone (68, else 65) and the boss text; `ReadTargetUrl` recovers both |
| Scrape.TargetUrlFollowsParsedZone | api/fflogs.js:46-48 | two zone texts that parse alike give the same URL |
| Scrape.TargetUrl | src/app/api/fflogs/route.ts:48-50 | the statistics URL of the zone with an optional `&boss=`; its properties are `TargetUrlRoundTrip` and `TargetUrlFollowsParsedZone` |
| Scrape.ExtractRowsAppend | src/app/api/fflogs/route.ts:66-75 | extraction keeps row order |
| Scrape.KeepNamedAppend | src/app/api/fflogs/route.ts:95 | the empty-job filter keeps record order |
| Scrape.ScrapedJobsAppend | api/fflogs.js:65-89 | the records of concatenated rows are the concatenated records |
| Scrape.ScrapedJobsOne | api/fflogs.js:66-74 | one row yields its trimmed cells 0, 1 and 3 exactly when it has four cells and a non-blank first cell |
| Scrape.ShortRowSkipped | src/app/api/fflogs/route.ts:68-69 | a row with fewer than four cells is dropped without affecting the others |
| Scrape.ScrapedJobsMembers | api/fflogs.js:65-89 | a record reaches `groupJobs` exactly when some usable row yields it |
| Scrape.ExtractRows | src/app/api/fflogs/route.ts:66-75 | rows with fewer than four cells are dropped, the rest become trimmed records in order; stated by `ExtractRowsAppend`, `ScrapedJobsOne` and `ShortRowSkipped` |
| Scrape.KeepNamed | src/app/api/fflogs/route.ts:95 | records with an empty job are dropped, the rest kept in order; stated by `KeepNamedAppend` and `ScrapedJobsMembers` |
| Scrape.TitleText | src/app/api/fflogs/route.ts:83 | a missing element gives "", a present one exactly the `trim` of its text (an empty text giving ""), which neither starts nor ends with whitespace |
| Session.GatherFailure | api/fflogs.js:54-88 | nothing throws exactly when every call from launch to the row read completes, the boss-title read completes when a boss was asked for, and the zone-title read completes when the boss label came out empty |
| Session.ResultOf | api/fflogs.js:91-97 | after a session with no throw, the 200 body carries the parsed zone id, the label read from the page, the built URL and all five groups |
| Session.ResultJobsNamed | api/fflogs.js:64-96 | a group of the 200 body lists a record exactly when some usable table row yields it and its job belongs to that group |
| Session.LabelOf | api/fflogs.js:76-88 | in a session whose reads completed, the label is the boss heading when that is non-empty, otherwise the trimmed zone heading ("" when that element is missing) |
| ApiHandler.Teardown | api/fflogs.js:103-110 | the page is closed exactly when it was opened, the browser exactly when it was launched, and the page before the browser; a failing page close does not stop the browser close |
| ApiHandler.Handle | api/fflogs.js:32-48 | the answer is `Answer`; a refused zone makes no browser call; an accepted zone navigates to the built URL exactly when a page was opened, and the trace ends with the teardown |
| ApiHandler.Run | api/fflogs.js:50-110 | the response is 500 for the first throw or 200 with the result, and the trace is the `try` calls followed by the teardown |
| ApiHandler.RunTry | api/fflogs.js:52-88 | the `try` block stops at the first throw; it reports which resources were created, and on success the rows and the label |
| ApiHandler.Finally | api/fflogs.js:103-110 | the `finally` block appends exactly the teardown to the trace |
| ApiHandler.TornDownAfter | api/fflogs.js:103-110 | a `try` trace followed by the teardown closes nothing early and ends with the teardown |
| ApiHandler.AnswerStatus | api/fflogs.js:35-102 | every request gets 400, 200 or 500: 400 exactly when the zone is refused, 200 exactly when nothing threw (with the result body), otherwise 500 with the first throw's details and no partial result |
| ApiHandler.AnswerIgnoresTeardown | api/fflogs.js:103-110 | close errors are swallowed: how the closes turn out never changes the answer |
| ApiHandler.Outcome | api/fflogs.js:50-102 | after an accepted zone the status is 200 or 500: 200 with zone, URL and groups exactly when nothing in `try` threw, else 500 with the details of the first throw |
| ApiHandler.Answer | api/fflogs.js:35-102 | the status is 400 with an error body exactly when the zone is missing or refused |
| RouteHandler.RouteFailure | src/app/api/fflogs/route.ts:53-93 | the `try` block completes exactly when every call through the close at line 93 completes |
| RouteHandler.Intended | src/app/api/fflogs/route.ts:37-110 | the intended answer is 400, 200 or 500, with 400 exactly for a refused zone and 200 exactly when the `try` block completed |
| RouteHandler.Get | src/app/api/fflogs/route.ts:32-112 | as written: the route rejects exactly when a launched browser's `try` throws and the close in `catch` throws, and then rejects with that close's error; otherwise it gives the intended answer; a refused zone makes no call; the browser gets 0, 1 or 2 closes; the page is never closed |
| RouteHandler.GetGuarded | src/app/api/fflogs/route.ts:104-110 | with the `catch` close guarded, the route always gives the intended answer |
| RouteHandler.RunTry | src/app/api/fflogs/route.ts:53-93 | the `try` block ends with one browser close when the reads completed |
| RouteHandler.Gather | src/app/api/fflogs/route.ts:54-91 | the calls from launch to the reads stop at the first throw and close nothing |
| RouteHandler.UnguardedCloseRejects | src/app/api/fflogs/route.ts:105 | zone 68 with a navigation timeout and a failing close rejects with the close's error and sends no response |
| RouteHandler.HandlersAgree | src/app/api/fflogs/route.ts:93-110 | when the executable resolves and the close at line 93 succeeds, both handlers answer alike |
| RouteHandler.LateCloseFails | src/app/api/fflogs/route.ts:93 | a failing close after complete reads turns the result into a 500 |
| Dashboard.TooltipPercent | src/app/page.tsx:99 | a non-positive total shows "0.0"; a positive total shows the slice's share times 100, which lies between 0 and 100 for a count between 0 and the total |
| Dashboard.MaxOf | src/app/page.tsx:189-191 | `Math.max` is an element of its arguments and bounds them all; it is `-Infinity` exactly for no arguments |
| Dashboard.MaxBossScore | src/app/page.tsx:187-193 | 100 off boss pages; on boss pages at least every score and equal to one of them, or 1 when they are all below 1 or there are none; always at least 1 |
| Dashboard.ReduceBest | src/app/page.tsx:295 | the reduction returns an element of the group, and fails exactly on an empty group |
| Dashboard.ReduceBestIsLastMax | src/app/page.tsx:295 | when every score parses, the reduction returns a largest score, the last of any ties |
| Dashboard.BestJobIsLastMax | src/app/page.tsx:295-296 | the boss-page best job has the largest comma-stripped score, the last of any ties |
| Dashboard.BestJob | src/app/page.tsx:295 | there is a best job exactly when the list is non-empty, and it is one of the listed jobs |
| Dashboard.NaNLastWins | src/app/page.tsx:295 | a last record whose score is NaN always wins the reduction |
| Dashboard.BarLabel | src/app/page.tsx:340 | the label is never empty nor "NaN": a usable score is shown as is, an empty or "NaN" score as "-" |
| Dashboard.JobColor | src/app/page.tsx:334 | the colour is the job's own colour when its trimmed, lower-cased name has one, and "#3B82F6" exactly when it has none |
| Dashboard.GroupLabel | src/app/page.tsx:304 | a key without a label is shown as itself |
| Dashboard.GroupHeadings | src/app/page.tsx:304 | each of the five keys is headed by its capitalised name |
| Dashboard.GroupedNamesColoured | src/app/page.tsx:22-44 | every name in a group list has a colour |
| Dashboard.GroupedJobColoured | src/app/page.tsx:334 | a record in any group is never drawn in the default colour |
| Dashboard.BossQuery | src/app/page.tsx:155 | the request carries a boss exactly when the boss id is present and non-zero |
| Dashboard.ZoneTitle | src/app/page.tsx:169-178 | the fallback zone name is never empty |
| Dashboard.Heading | src/app/page.tsx:288 | the heading is the label when it is non-empty, otherwise the zone name; it is never empty |
| Dashboard.CommaIgnored | src/app/page.tsx:63 | a comma anywhere in a number is ignored |
| Dashboard.PieTotalAppend | src/app/page.tsx:63 | the pie total of two record lists is the sum of their totals |
| Dashboard.PieTotal | src/app/page.tsx:63 | the sum of the comma-stripped counts with NaN as 0; stated by `PieTotalAppend` and `SharesSumToOne` |
| Dashboard.ShareSumIs | src/app/page.tsx:68 | the shares add up to the sum of the counts over the total, or 0 when the total is not positive |
| Dashboard.Share | src/app/page.tsx:68 | a non-positive total gives share 0; a count between 0 and the total gives a share between 0 and 1, and the whole total gives 1 |
| Dashboard.SharesSumToOne | src/app/page.tsx:66-68 | with a positive total the slices make up the whole pie |
| Dashboard.ZeroTotal | src/app/page.tsx:68 | with a zero total every share is 0 and every tooltip reads "0.0" |
| Dashboard.BossUrlIffBoss | src/app/page.tsx:184 | the statistics URL contains "boss" exactly when the request carried a non-empty boss |
| Dashboard.BossPageIffBoss | src/app/page.tsx:184 | a result received from a session with no throw is a boss page exactly when the request carried a non-empty boss |
| Dashboard.IsBossPage | src/app/page.tsx:184 | the page is a boss page when the received URL contains "boss"; stated by `BossPageIffBoss` |
| Dashboard.RequestAccepted | src/app/page.tsx:154-155 | the page's zone text passes the handler's check with its own value, and a boss page follows exactly when a non-zero boss id was sent |
| Dashboard.IntTextChars | src/app/page.tsx:154 | an integer's text is digits and at most a minus sign |
| Dashboard.FetchUrlNamesBoss | src/app/page.tsx:154-155 | the fetch URL has `&boss=` exactly when a non-zero boss id was passed |
| Dashboard.FetchUrl | src/app/page.tsx:154-155 | the client fetch URL; stated by `FetchUrlNamesBoss` |
| Dashboard.ZoneTitleInjective | src/app/page.tsx:169-178 | different zones get different fallback names |

## Left out

- Browser automation is not modelled beyond its outcomes. An `Env` gives each call's completion or throw, the table rows as `seq<seq<string>>`, and the two titles as `Option<string>`. This covers the launch and chromium executable, navigation, `waitForSelector` and the DOM queries inside `page.evaluate`.
- Timeouts are not modelled, and neither is the 1 s settle delay. The delay appears only as a `Settle` step in the trace.
- HTTP objects (`NextRequest`, `NextResponse`, `req` and `res`) are reduced to a status and a body datatype.
- An array-valued query parameter is not modelled: a query value is an optional string.
- The `new Date().toISOString()` timestamp is the opaque `Env.timestamp` field.
- `console.error` logging is left out.
- Floating point is left out:
  - `isColorLight`
  - the pie arc coordinates
  - `percentOfBest` and `barWidth`
  - the non-boss `parseFloat` best-job `reduce`

  Shares are exact `real`s.
- Dashboard.TooltipPercent: `toFixed(1)` rounding and its text are not modelled; the value is the exact share times 100.
- JsStrings.Lower: `toLowerCase` is modelled on ASCII letters plus U+212A KELVIN SIGN. That sign is the only non-ASCII character whose lower case is ASCII, so lookups into the all-ASCII name tables come out exactly as in JavaScript.
- JsNumbers.ParseInt: integers are unbounded. The loss of precision that Number has above 2^53 is not modelled.
- JsNumbers.IntText: only integer Numbers are rendered. The exponent form of very large Numbers is not modelled.
- React state, rendering and event handlers are left out. This includes the loading and error states of `fetchFFLogsData`, the `response.ok` check and the hover tooltips.
- ApiHandler.Handle: `page.setDefaultTimeout` is a synchronous call that is taken never to throw.
- ApiHandler.Handle is split into Handle, Run, RunTry and Finally so that each proof stays small. Together they follow the handler's statements in order.

## Findings

| source | as written | input that shows it | evidently intended | confidence | as-written member | corrected member |
|---|---|---|---|---|---|---|
| src/app/api/fflogs/route.ts:105 | the `catch` block awaits `browser.close()` without a guard, so a close that throws escapes the handler: no 500 body is sent and the route's promise rejects with the close error (also when the close at line 93 already failed and this is a second close) | zone "68", navigation throws "Navigation timeout", `browser.close()` throws "Target closed" | drop the close error as `api/fflogs.js:107-109` does, and answer 500 with the original error's details | not executed | RouteHandler.UnguardedCloseRejects | RouteHandler.GetGuarded |
