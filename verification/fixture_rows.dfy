/**
 * The per-fixture work inside the handler's `forEach` callback: the
 * kickoff's local clock time rendered as text, and the eleven values bound
 * to the `INSERT INTO fixtures` statement, in its column order.
 */
module FixtureRows {
  import opened Options
  import opened Text

  // ---------------------------------------------------------------------
  // Clock time
  // ---------------------------------------------------------------------

  /** The local clock reading of a kickoff instant, as `getHours()`,
      `getMinutes()` and `getSeconds()` report it. */
  datatype ClockTime = ClockTime(hours: nat, minutes: nat, seconds: nat)

  predicate ValidClock(c: ClockTime) {
    c.hours < 24 && c.minutes < 60 && c.seconds < 60
  }

  /** The last decimal digit of `n` is the last character of its rendering. */
  lemma LastDigit(n: nat)
    ensures NatToString(n)[|NatToString(n)| - 1] == DigitChar(n % 10)
  {
  }

  /** `("0" + n).substr(-2)`: the last two digits of `n`, so a one-digit
      value gains a leading zero and a value of 100 or more loses its
      leading digits. */
  function LastTwoDigits(n: nat): (r: string)
    ensures |r| == 2 && AllDigits(r) && ParseNat(r) == n % 100
  {
    var s := "0" + NatToString(n);
    var r := Substr(s, -2);
    LastTwoDigitsValue(n, s, r);
    r
  }

  lemma LastTwoDigitsValue(n: nat, s: string, r: string)
    requires s == "0" + NatToString(n) && r == s[|s| - 2..]
    ensures |r| == 2 && AllDigits(r) && ParseNat(r) == n % 100
  {
    var digits := NatToString(n);
    if n < 10 {
      assert r == s;
      ParseNatToString(n);
      ParseNatLeadingZero(digits);
    } else {
      assert digits == NatToString(n / 10) + [DigitChar(n % 10)];
      LastDigit(n / 10);
      assert r == [DigitChar((n / 10) % 10), DigitChar(n % 10)];
      ParseTwoDigits((n / 10) % 10, n % 10);
      TensAndUnits(n);
    }
  }

  /** Two digit characters read as a two-digit number. */
  lemma ParseTwoDigits(a: nat, b: nat)
    requires a < 10 && b < 10
    ensures AllDigits([DigitChar(a), DigitChar(b)])
    ensures ParseNat([DigitChar(a), DigitChar(b)]) == 10 * a + b
  {
    var r := [DigitChar(a), DigitChar(b)];
    assert r[..1] == [DigitChar(a)] && r[..1][..0] == [];
    assert ParseNat(r[..1]) == a;
  }

  /** The tens and units digits of `n` make up `n % 100`. */
  lemma TensAndUnits(n: nat)
    ensures 10 * ((n / 10) % 10) + n % 10 == n % 100
  {
    var a, b := n / 100, n % 100;
    assert n == 100 * a + b;
    assert n / 10 == 10 * a + b / 10;
    assert (n / 10) % 10 == b / 10;
    assert n % 10 == b % 10;
  }

  /** `hours + ":" + minutes.substr(-2) + ":" + seconds.substr(-2)`: hours
      unpadded, minutes and seconds as exactly two digits. */
  function FormatTime(c: ClockTime): string {
    NatToString(c.hours) + ":" + LastTwoDigits(c.minutes) + ":" + LastTwoDigits(c.seconds)
  }

  /** The time string is its three fields joined by colons. */
  lemma FormatTimeFields(c: ClockTime)
    ensures Split(FormatTime(c), ':') == [NatToString(c.hours), LastTwoDigits(c.minutes), LastTwoDigits(c.seconds)]
  {
    var fields := [NatToString(c.hours), LastTwoDigits(c.minutes), LastTwoDigits(c.seconds)];
    assert fields[1..][1..] == [fields[2]];
    assert Join(fields[1..], ':') == fields[1] + [':'] + fields[2];
    assert Join(fields, ':') == fields[0] + [':'] + (fields[1] + [':'] + fields[2]);
    assert FormatTime(c) == Join(fields, ':');
    SplitJoin(fields, ':');
  }

  /** Reads `H:MM:SS` back: three colon-separated digit fields, the last
      two exactly two digits long. */
  function ParseTime(s: string): Option<ClockTime> {
    ClockOfFields(Split(s, ':'))
  }

  /** The clock reading named by the colon-separated fields of a time. */
  function ClockOfFields(f: seq<string>): Option<ClockTime> {
    if |f| == 3 && |f[0]| >= 1 && |f[1]| == 2 && |f[2]| == 2
      && AllDigits(f[0]) && AllDigits(f[1]) && AllDigits(f[2])
    then Some(ClockTime(ParseNat(f[0]), ParseNat(f[1]), ParseNat(f[2])))
    else None
  }

  /** The time string keeps the hours and the minutes and seconds modulo
      100, which is all of them for a real clock reading. */
  lemma ParseFormatTime(c: ClockTime)
    ensures ParseTime(FormatTime(c)) == Some(ClockTime(c.hours, c.minutes % 100, c.seconds % 100))
    ensures ValidClock(c) ==> ParseTime(FormatTime(c)) == Some(c)
  {
    var fields := [NatToString(c.hours), LastTwoDigits(c.minutes), LastTwoDigits(c.seconds)];
    FormatTimeFields(c);
    FieldsOfTime(c);
    assert ParseTime(FormatTime(c)) == ClockOfFields(fields);
    if ValidClock(c) {
      BelowHundred(c.minutes);
      BelowHundred(c.seconds);
    }
  }

  lemma BelowHundred(n: nat)
    requires n < 100
    ensures n % 100 == n
  {
  }

  lemma FieldsOfTime(c: ClockTime)
    ensures ClockOfFields([NatToString(c.hours), LastTwoDigits(c.minutes), LastTwoDigits(c.seconds)])
      == Some(ClockTime(c.hours, c.minutes % 100, c.seconds % 100))
  {
    ParseNatToString(c.hours);
  }

  /** Hours are not padded: a morning kickoff has a one-digit hour field. */
  lemma HoursUnpadded(c: ClockTime)
    requires c.hours < 10
    ensures |Split(FormatTime(c), ':')[0]| == 1
  {
    FormatTimeFields(c);
  }

  // ---------------------------------------------------------------------
  // Upstream record and stored row
  // ---------------------------------------------------------------------

  /** The parts of one upstream fixture the handler reads. `kickoff` is the
      local clock time of `fixture.timestamp`. */
  datatype FixtureInfo = FixtureInfo(id: int, date: string, kickoff: ClockTime, statusLong: string, venueName: string)
  datatype Team = Team(id: int, name: string)
  datatype Goals = Goals(home: Option<int>, away: Option<int>)
  datatype FixtureRecord = FixtureRecord(fixture: FixtureInfo, home: Team, away: Team, goals: Goals)

  /** One row of the `fixtures` table. */
  datatype StoredFixture = StoredFixture(
    fixtureId: int, date: string, time: string, status: string,
    home: string, homeId: int, homeScore: Option<int>,
    away: string, awayId: int, awayScore: Option<int>,
    venue: string)

  /** The row stored for one upstream fixture. The date string is copied
      untouched; only the time is computed. */
  function ToStoredFixture(f: FixtureRecord): StoredFixture {
    StoredFixture(
      f.fixture.id, f.fixture.date, FormatTime(f.fixture.kickoff), f.fixture.statusLong,
      f.home.name, f.home.id, f.goals.home,
      f.away.name, f.away.id, f.goals.away,
      f.fixture.venueName)
  }

  /** Recovers the upstream fixture from its row. */
  function FromStoredFixture(row: StoredFixture): Option<FixtureRecord> {
    match ParseTime(row.time)
    case None => None
    case Some(kickoff) =>
      Some(FixtureRecord(
        FixtureInfo(row.fixtureId, row.date, kickoff, row.status, row.venue),
        Team(row.homeId, row.home), Team(row.awayId, row.away),
        Goals(row.homeScore, row.awayScore)))
  }

  /** Nothing the handler reads from a fixture is lost in its row. */
  lemma StoredFixtureRoundTrip(f: FixtureRecord)
    requires ValidClock(f.fixture.kickoff)
    ensures FromStoredFixture(ToStoredFixture(f)) == Some(f)
  {
    ParseFormatTime(f.fixture.kickoff);
  }

  /** So distinct fixtures give distinct rows. */
  lemma ToStoredFixtureInjective(f: FixtureRecord, g: FixtureRecord)
    requires ValidClock(f.fixture.kickoff) && ValidClock(g.fixture.kickoff)
    requires ToStoredFixture(f) == ToStoredFixture(g)
    ensures f == g
  {
    StoredFixtureRoundTrip(f);
    StoredFixtureRoundTrip(g);
  }

  // ---------------------------------------------------------------------
  // Statement parameters
  // ---------------------------------------------------------------------

  /** A value bound to a statement parameter. */
  datatype SqlValue = SqlInt(n: int) | SqlText(s: string) | SqlNull

  /** The column list of the insert statement, in order. */
  const Columns: seq<string> := [
    "fixture_id", "date", "time", "status", "home", "home_id", "home_score",
    "away", "away_id", "away_score", "venue"]

  function Nullable(v: Option<int>): SqlValue {
    match v
    case Some(n) => SqlInt(n)
    case None => SqlNull
  }

  /** The value a row holds in the named column. */
  function ColumnValue(row: StoredFixture, column: string): Option<SqlValue> {
    if column == "fixture_id" then Some(SqlInt(row.fixtureId))
    else if column == "date" then Some(SqlText(row.date))
    else if column == "time" then Some(SqlText(row.time))
    else if column == "status" then Some(SqlText(row.status))
    else if column == "home" then Some(SqlText(row.home))
    else if column == "home_id" then Some(SqlInt(row.homeId))
    else if column == "home_score" then Some(Nullable(row.homeScore))
    else if column == "away" then Some(SqlText(row.away))
    else if column == "away_id" then Some(SqlInt(row.awayId))
    else if column == "away_score" then Some(Nullable(row.awayScore))
    else if column == "venue" then Some(SqlText(row.venue))
    else None
  }

  /** The `values` array bound to `$1` .. `$11`. */
  function InsertParams(row: StoredFixture): seq<SqlValue> {
    [SqlInt(row.fixtureId), SqlText(row.date), SqlText(row.time), SqlText(row.status),
     SqlText(row.home), SqlInt(row.homeId), Nullable(row.homeScore),
     SqlText(row.away), SqlInt(row.awayId), Nullable(row.awayScore),
     SqlText(row.venue)]
  }

  /** One value per column, each the row's value for the column named at
      that position of the statement's column list. */
  lemma InsertParamsByColumn(row: StoredFixture)
    ensures |InsertParams(row)| == |Columns|
    ensures forall i :: 0 <= i < |Columns| ==> ColumnValue(row, Columns[i]) == Some(InsertParams(row)[i])
  {
  }

  function AsNullable(v: SqlValue): Option<Option<int>> {
    match v
    case SqlInt(n) => Some(Some(n))
    case SqlNull => Some(None)
    case SqlText(_) => None
  }

  /** Reads a row back from eleven statement parameters. */
  function RowOfParams(values: seq<SqlValue>): Option<StoredFixture> {
    if |values| != 11 then None
    else if !(values[0].SqlInt? && values[1].SqlText? && values[2].SqlText? && values[3].SqlText?
      && values[4].SqlText? && values[5].SqlInt? && values[7].SqlText? && values[8].SqlInt?
      && values[10].SqlText?) then None
    else
      match (AsNullable(values[6]), AsNullable(values[9]))
      case (Some(homeScore), Some(awayScore)) =>
        Some(StoredFixture(values[0].n, values[1].s, values[2].s, values[3].s,
          values[4].s, values[5].n, homeScore, values[7].s, values[8].n, awayScore,
          values[10].s))
      case _ => None
  }

  /** The parameters carry the whole row. */
  lemma InsertParamsRoundTrip(row: StoredFixture)
    ensures RowOfParams(InsertParams(row)) == Some(row)
  {
  }
}
