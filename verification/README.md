# Weekly fixture sync, modelled in Dafny

The Premier League stats site keeps a `fixtures` table of this week's
matches. A scheduled job calls the `GET` handler of `app/api/cron/route.ts`,
which works in five steps:

1. It checks a bearer token. A missing, empty or rejected token gives 401.
2. It works out the current week, Sunday to Saturday, and the season year.
3. It asks the football data provider for that week's fixtures.
4. It deletes every row of the table.
5. It inserts one row per fixture. The time of day is turned into text first.

Five failures give 503:

- an unreachable provider;
- an unreadable CA bundle;
- a failed database connection;
- a failed `DELETE`;
- a provider body with no fixture array. Here `forEach` throws after the
  delete has already run.

Otherwise the handler answers 200, whatever the individual inserts do.

This project models that handler as pure functions and proves what it
guarantees. The modules are:

- `Options`: the `Option` type.
- `Text`: the JavaScript string operations the handler uses, written for
  `seq<char>`. These are `String(n)`, `padStart`, `substr` with a negative
  start, `split` and `join` on one character.
- `CivilDates`: proleptic Gregorian dates with a 0-based month, as
  `getMonth()` reports it. It also has the day count since 0001-01-01,
  `getDay()` and `setDate()` with overflow into the next or previous months.
- `WeekWindow`: the Sunday and Saturday of today's week, the season year,
  and `formatDate` together with a parser that reads its output back.
- `Bearer`: how the token is taken out of the `Authorization` header.
- `FixtureRows`: the kickoff time string, the stored row, and the eleven
  insert parameters in column order.
- `CronSync`: the handler as one step function,
  `Handle(table, env, query)`, and `Run(table, env)`, which first computes
  the query for today's week.
  - The table is a multiset of rows.
  - `env` holds everything the outside world decides:
    - the header;
    - the verifier's verdict;
    - the local date;
    - the provider's answer;
    - whether the certificate read, the connect and the delete succeed;
    - which inserts succeed.
  - The outcome has three parts: the status, the table afterwards, and the
    operations the handler tried, in order.

## Behaviour worth knowing

- **Season year.** The comment at line 85 says the season year depends on
  the current month. The code reads the month of `now`, but by line 86 `now`
  has already been moved to the week's Saturday. So the Saturday's month
  decides. From August on, the year comes from a fresh clock reading, which
  is today's year. `WeekWindow.SeasonYear` proves that the result is the
  season the Saturday falls in. `WeekWindow.SeasonYearAgainstToday` proves
  that this differs from today's season exactly when today is in July and
  the Saturday is in August.
- **Hour field.** The hour is not padded (`9:05:00`), while minutes and
  seconds always have two digits (`FixtureRows.HoursUnpadded`).
- **Malformed body.** A body with no fixture array empties the table, then
  answers 503: the `DELETE` at line 122 runs before `forEach` throws at
  line 124 (`CronSync.MalformedBodyEmptiesTable`).
- **Scheme word.** The comment at line 49 expects `Bearer <token>`, but the
  scheme word is never checked. `Token xyz` hands `xyz` to the verifier
  just as `Bearer xyz` does (`Bearer.SchemeNotChecked`).
- **Missing token.** With no header, or with no space in it, the token is
  `undefined`. With `Bearer ` and nothing after the space, it is the empty
  string. `jwt.verify` refuses both ("jwt must be provided") before it
  looks at any key, so the answer is always 401
  (`CronSync.MissingTokenUnauthorized`).

## Model

| member | source | states |
|---|---|---|
| Text.NatToString | app/api/cron/route.ts:71-72 | `"" + n` is a non-empty digit string. It starts with `0` only for zero, has one digit exactly below 10 and at most two exactly below 100. |
| Text.ParseNatToString | app/api/cron/route.ts:71-72 | Reading the decimal rendering of `n` gives `n` back. |
| Text.NatToStringParse | app/api/cron/route.ts:71-72 | A digit string without a leading zero (or `0` itself) is the rendering of its own value. |
| Text.ParseIntToString | app/api/cron/route.ts:73-75 | The year's rendering, sign included, reads back as the year. |
| Text.PadStart | app/api/cron/route.ts:75 | `padStart` keeps the string as its suffix and reaches the width with fill characters only, or leaves a string that is already long enough alone. |
| Text.Substr | app/api/cron/route.ts:127-131 | `substr(start)` returns a suffix. With a negative start its length is the smaller of `-start` and the whole length. |
| Text.Split | app/api/cron/route.ts:49 | `split` gives at least one field and no field contains the separator. There is exactly one field when the separator does not occur. |
| Text.JoinSplit | app/api/cron/route.ts:49 | Joining the fields of a split with the separator restores the string. |
| Text.SplitJoin | app/api/cron/route.ts:75 | Splitting a join of separator-free fields gives the fields back. |
| CivilDates.AddDays | app/api/cron/route.ts:66-67 | Moving `n` days gives a valid date whose day count is `n` more, across any month or year boundary. |
| CivilDates.SetDate | app/api/cron/route.ts:66-67 | `setDate(n)` gives a valid date, `n - getDate()` days away. Day 0 is the last day of the previous month. |
| CivilDates.SetDateShifts | app/api/cron/route.ts:66-67 | `setDate(n)` is the same date as moving `n - getDate()` days. |
| CivilDates.DayOfWeekAfter | app/api/cron/route.ts:65-67 | Moving `n` days moves `getDay()` on by `n` modulo 7. |
| CivilDates.DayNumberInjective | app/api/cron/route.ts:64-67 | Distinct valid dates have distinct day counts. |
| WeekWindow.WeekStart | app/api/cron/route.ts:64-66 | The first `setDate` lands on a Sunday at most six days before today. |
| WeekWindow.WeekEnd | app/api/cron/route.ts:67 | The second `setDate` lands on the Saturday six days after that Sunday, not before today. |
| WeekWindow.WeekStartIsMostRecentSunday | app/api/cron/route.ts:64-66 | A date is the week start exactly when it is a Sunday in the seven days ending today. |
| WeekWindow.SeasonYear | app/api/cron/route.ts:81-88 | The season year equals the season (starting in August) of the week's Saturday. |
| WeekWindow.SeasonYearAgainstToday | app/api/cron/route.ts:81-88 | The season year differs from today's season exactly when today is in July and the Saturday is in August. |
| WeekWindow.NewYearWeekKeepsDecemberSeason | app/api/cron/route.ts:81-88 | A week running over New Year asks for the season of its December days, on either side of New Year. |
| WeekWindow.TwoDigitField | app/api/cron/route.ts:71-75 | A padded month or day field is exactly two digits and denotes the number. |
| WeekWindow.FormatDate | app/api/cron/route.ts:69-76 | `formatDate` is the unpadded year, a dash, two characters, a dash and two characters. |
| WeekWindow.FormatDateFields | app/api/cron/route.ts:69-76 | The fields of `formatDate` are the year, the two-digit 1-based month and the two-digit day. |
| WeekWindow.ParseFormatDate | app/api/cron/route.ts:69-79 | The week bounds lose nothing: a formatted date reads back as the same date. |
| Bearer.TokenOf | app/api/cron/route.ts:48-49 | The token is absent exactly when the header (an absent header reading as empty) has no space. A present token has no space in it. |
| Bearer.SchemeNotChecked | app/api/cron/route.ts:49 | Any first word gives the same token: the scheme is not checked. |
| Bearer.TokenIsSecondField | app/api/cron/route.ts:49 | The token is exactly the text between the first space and the next space or the end. |
| Bearer.NoSpaceNoToken | app/api/cron/route.ts:48-49 | A missing header, or one without a space, yields no token. |
| FixtureRows.LastTwoDigits | app/api/cron/route.ts:127-131 | `("0" + n).substr(-2)` is two digits denoting `n % 100`. |
| FixtureRows.FormatTimeFields | app/api/cron/route.ts:125-131 | The time string splits on `:` into the hours, the two-digit minutes and the two-digit seconds. |
| FixtureRows.ParseFormatTime | app/api/cron/route.ts:125-131 | The time string reads back as the hours and the minutes and seconds modulo 100. For a real clock reading that is the reading itself. |
| FixtureRows.HoursUnpadded | app/api/cron/route.ts:126-131 | A kickoff before 10 o'clock has a one-digit hour field. |
| FixtureRows.StoredFixtureRoundTrip | app/api/cron/route.ts:141-153 | Every field the handler reads from a fixture can be recovered from its row. |
| FixtureRows.ToStoredFixtureInjective | app/api/cron/route.ts:141-153 | Distinct fixtures give distinct rows. |
| FixtureRows.InsertParamsByColumn | app/api/cron/route.ts:133-153 | There are eleven parameters. The one at each position is the row's value for the column named at that position of the `INSERT` column list. |
| FixtureRows.InsertParamsRoundTrip | app/api/cron/route.ts:141-153 | The eleven parameters carry the whole row. |
| CronSync.InsertEffects | app/api/cron/route.ts:124-161 | One insert per fixture, in list order, and each insert's parameters read back as that fixture's row. |
| CronSync.Kept | app/api/cron/route.ts:155-160 | The rows that land are at most all of them, and all of them exactly when every insert succeeds. |
| CronSync.KeptMembers | app/api/cron/route.ts:155-160 | A row lands exactly when it comes from some fixture whose insert succeeded. |
| CronSync.KeptMultiplicity | app/api/cron/route.ts:124-161 | A row lands once for each accepted position that holds it. Two fixtures with the same row give two copies. |
| CronSync.KeptAll | app/api/cron/route.ts:155-160 | When every insert succeeds, the rows that land are exactly the fixtures' rows. |
| CronSync.Handle | app/api/cron/route.ts:48-62 | 401 comes back exactly when the token is missing, empty or rejected by the verifier. Then only the check was tried and the table is unchanged. Past the gate, the second operation is the fetch. Without a delete the table never changes. |
| CronSync.MissingTokenUnauthorized | app/api/cron/route.ts:48-62 | No header, no space, or an empty second field gives 401. Only the check is tried and the table is unchanged. |
| CronSync.DeleteAfterFetchAndConnect | app/api/cron/route.ts:107-122 | The delete is tried at most once. It comes fifth, after the token check, the fetch, the certificate read and the connect, all of which succeeded. |
| CronSync.NotClearedKeepsTable | app/api/cron/route.ts:107-171 | If the handler does not get past the delete, the table is untouched and the answer is not 200. |
| CronSync.FullReplacement | app/api/cron/route.ts:120-180 | After the delete, with a fixture array, the answer is 200. The table holds exactly the rows whose inserts succeeded. The operations are check, fetch, certificate read, connect, delete, then the inserts in order. |
| CronSync.MalformedBodyEmptiesTable | app/api/cron/route.ts:107-171 | A body without a fixture array gives 503 after the delete, with the table left empty. |
| CronSync.RunFetchesThisWeek | app/api/cron/route.ts:64-108 | A run past the auth gate fetches the query for today's week. |
| CronSync.QueryWindow | app/api/cron/route.ts:64-105 | The query names league 39 and the Los Angeles time zone. Its bounds read back as the Sunday and Saturday around today, and its season is the Saturday's season. |
| CronSync.PriorTableIrrelevant | app/api/cron/route.ts:120-122 | Once the delete has run, the outcome does not depend on the prior table. |
| CronSync.NoPriorRowSurvives | app/api/cron/route.ts:120-161 | After the delete, a row is in the table exactly when it comes from a fixture of this run whose insert succeeded. |
| CronSync.AllInsertsSucceed | app/api/cron/route.ts:124-161 | When every insert succeeds, the table is exactly the rows of the delivered fixtures and the answer is 200. |
| CronSync.InsertOutcomesInvisible | app/api/cron/route.ts:155-180 | Failed inserts change neither the answer nor the operations tried. |
| CronSync.HandleIdempotent | app/api/cron/route.ts:46-181 | Handling the same query again, in the same world, from the table the first pass left, gives the same outcome. |
| CronSync.RunIdempotent | app/api/cron/route.ts:46-181 | Running again in the same world leaves the same outcome. |
| CronSync.EmptyListEmptiesTable | app/api/cron/route.ts:120-124 | An empty fixture list still empties the table and answers 200. |
| CronSync.TwoFixturesStored | app/api/cron/route.ts:120-180 | Two delivered fixtures, both inserted, leave exactly their two rows and answer 200. |

## Left out

- **Outside calls.** The AWS Secrets Manager lookup, the secret's JSON
  parsing and `jwt.verify` (lines 12-44) are one verdict function of a
  non-empty token. The model does not check signatures or expiry.
- **Network, files and database.** The HTTP request to the provider, the
  certificate file read, `connectToDatabase` and the SQL statements are
  outcomes given by the environment. `app/lib/db.ts` is not part of this
  model.
- **Clock.** The current local date is a parameter. Turning the epoch
  `timestamp` into the kickoff's local hours, minutes and seconds is left
  out: the kickoff arrives as a clock reading. Time zones are left out too.
- **Second clock reading.** `currentYear` comes from a second
  `new Date()` and is taken to be today's year. A run that straddles
  midnight on New Year's Eve is not modelled.
- **Concurrency.** The `forEach` callbacks run concurrently and are not
  awaited. The 200 can go out before the inserts finish. The model gives
  the table once every insert has settled, with each insert's success
  decided per position by the environment.
- **Missing enclosing objects.** A fixture without an object the callback
  reads through (`fixture.status`, `fixture.venue`, `teams.home`,
  `teams.away`, `goals`) throws a TypeError at lines 141-153. That
  callback's promise rejects and its row is never inserted. The model
  counts this as a failure of that insert.
- **Null leaves.** A missing or null leaf, such as `venue.name`,
  `teams.home.name` or `teams.away.id`, puts `undefined` or `null` into
  `values`. The driver binds that as NULL and the insert goes ahead. The
  model's row can hold NULL only in the two score columns. Null leaves in
  the other columns are not modelled.
- **Missing timestamp.** A missing `timestamp` gives an invalid `Date` and
  a time string of `NaN:aN:aN`. This is not modelled: the kickoff is
  always a clock reading.
- **Client lifetime.** The database client is never released; this is not
  modelled.
- **Date range and number formatting.** `Date`'s range limit (±8.64e15 ms)
  and JavaScript's exponent notation for huge numbers are not modelled.
  Years and counts are unbounded integers.
- **Header handling.** The runtime's whitespace trimming of header values
  is not modelled.
- **Response bodies.** These are `Status.Message()`. No JSON encoding is
  modelled.
- **Page code.** The pages, components and `app/lib/data.ts`, which only
  read the table, are not part of this model.
