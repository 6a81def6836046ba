/**
 * The scheduled sync handler (`GET` of the cron route) as one step
 * function: from the current `fixtures` table and everything the handler
 * learns from the outside world, the response status, the table it leaves
 * behind and the operations it attempts, in order.
 *
 * The outside world enters as an environment: the `Authorization` header,
 * the token verifier's verdict (secret lookup and JWT check together), the
 * local date, the provider's answer to the query, whether the CA bundle
 * read, the database connect and the `DELETE` succeed, and which of the
 * per-fixture inserts succeed.
 */
module CronSync {
  import opened Options
  import opened CivilDates
  import opened WeekWindow
  import opened Bearer
  import opened FixtureRows

  /** What `verifyToken` settles. A failing secret lookup or an unparsable
      secret throws just as a rejected token does. */
  datatype Verdict = Verified | SecretUnavailable | TokenRejected

  /** `verifyToken` resolves. `jwt.verify` refuses a missing or empty token
      ("jwt must be provided") before it looks at any key, so such a token
      is never accepted, whatever the verifier would say of a real one. */
  predicate TokenAccepted(env: Env, token: Option<string>) {
    token.Some? && token.value != "" && env.verify(token.value) == Verified
  }

  /** The provider's answer. `Unreachable` covers transport errors, non-2xx
      statuses and a body with no `data` (line 109 throws at once).
      `Delivered(None)` is a body whose `response` member is not an array. */
  datatype Upstream = Unreachable | Delivered(fixtures: Option<seq<FixtureRecord>>)

  /** The query parameters sent to the provider. */
  datatype Query = Query(league: string, timezone: string, from: string, to: string, season: int)

  /** Everything the outside world decides. `verify` is what `verifyToken`
      settles for a token that reaches `jwt.verify` (see `TokenAccepted`). */
  datatype Env = Env(
    authorization: Option<string>,
    verify: string -> Verdict,
    today: CivilDate,
    upstream: Query -> Upstream,
    certReadOk: bool,
    connectOk: bool,
    deleteOk: bool,
    insertOk: nat -> bool)

  datatype Status = Ok | Unauthorized | ServiceUnavailable {

    function Code(): int {
      match this
      case Ok => 200
      case Unauthorized => 401
      case ServiceUnavailable => 503
    }

    function Message(): string {
      match this
      case Ok => "Updated successfully"
      case Unauthorized => "Unauthorized"
      case ServiceUnavailable => "Service Unavailable"
    }
  }

  /** An operation the handler attempts against the outside world. */
  datatype Effect =
    | CheckToken(token: Option<string>)
    | Fetch(query: Query)
    | ReadCert
    | Connect
    | DeleteAll
    | Insert(params: seq<SqlValue>)

  datatype Outcome = Outcome(status: Status, table: multiset<StoredFixture>, effects: seq<Effect>)

  const League := "39"
  const TimeZone := "America/Los_Angeles"

  /** Lines 64-105: this week's Sunday to Saturday and the season year. */
  function WeekQuery(today: CivilDate): Query
    requires Valid(today)
  {
    Query(League, TimeZone, FormatDate(WeekStart(today)), FormatDate(WeekEnd(today)), SeasonYear(today))
  }

  /** The inserts issued by `forEach`, one per row, in list order: each
      carries the parameters its row reads back from. */
  function InsertEffects(rows: seq<StoredFixture>): (effects: seq<Effect>)
    ensures |effects| == |rows|
    ensures forall i :: 0 <= i < |rows| ==>
      effects[i].Insert? && RowOfParams(effects[i].params) == Some(rows[i])
    decreases |rows|
  {
    if rows == [] then []
    else
      var last := |rows| - 1;
      InsertParamsRoundTrip(rows[last]);
      InsertEffects(rows[..last]) + [Insert(InsertParams(rows[last]))]
  }

  /** The rows the inserts would store, one per fixture, in list order. */
  function Rows(fixtures: seq<FixtureRecord>): (rows: seq<StoredFixture>)
    ensures |rows| == |fixtures|
    ensures forall i :: 0 <= i < |fixtures| ==> rows[i] == ToStoredFixture(fixtures[i])
  {
    seq(|fixtures|, i requires 0 <= i < |fixtures| => ToStoredFixture(fixtures[i]))
  }

  /** The elements whose position `ok` accepts, as a multiset: what the
      emptied table holds once the inserts that succeeded have landed. All
      of them are kept exactly when `ok` accepts every position. */
  function Kept<T>(xs: seq<T>, ok: nat -> bool): (kept: multiset<T>)
    ensures |kept| <= |xs|
    ensures |kept| == |xs| <==> forall i :: 0 <= i < |xs| ==> ok(i)
    decreases |xs|
  {
    if xs == [] then multiset{}
    else
      var last := |xs| - 1;
      Kept(xs[..last], ok) + (if ok(last) then multiset{xs[last]} else multiset{})
  }

  /** The accepted positions that hold `x`. */
  ghost function AcceptedAt<T>(xs: seq<T>, ok: nat -> bool, x: T): set<int> {
    set i | 0 <= i < |xs| && ok(i) && xs[i] == x
  }

  /** An element is kept exactly when it sits at some accepted position. */
  lemma KeptMembers<T>(xs: seq<T>, ok: nat -> bool, x: T)
    ensures x in Kept(xs, ok) <==> exists i :: 0 <= i < |xs| && ok(i) && xs[i] == x
  {
    KeptMultiplicity(xs, ok, x);
    if exists i :: 0 <= i < |xs| && ok(i) && xs[i] == x {
      var i :| 0 <= i < |xs| && ok(i) && xs[i] == x;
      assert i in AcceptedAt(xs, ok, x);
    } else {
      assert AcceptedAt(xs, ok, x) == {};
    }
  }

  /** How often an element is kept: once for each accepted position that
      holds it. */
  lemma {:induction false} KeptMultiplicity<T>(xs: seq<T>, ok: nat -> bool, x: T)
    ensures Kept(xs, ok)[x] == |AcceptedAt(xs, ok, x)|
    decreases |xs|
  {
    if xs == [] {
      assert AcceptedAt(xs, ok, x) == {};
    } else {
      var last := |xs| - 1;
      var earlier := xs[..last];
      KeptMultiplicity(earlier, ok, x);
      var before := AcceptedAt(earlier, ok, x);
      var here: set<int> := if ok(last) && xs[last] == x then {last} else {};
      AcceptedAtStep(xs, ok, x);
      assert before !! here;
      assert |before + here| == |before| + |here|;
      var tail := if ok(last) then multiset{xs[last]} else multiset{};
      assert Kept(xs, ok) == Kept(earlier, ok) + tail;
      assert tail[x] == |here|;
    }
  }

  lemma AcceptedAtStep<T>(xs: seq<T>, ok: nat -> bool, x: T)
    requires xs != []
    ensures var last := |xs| - 1;
      AcceptedAt(xs, ok, x)
        == AcceptedAt(xs[..last], ok, x) + (if ok(last) && xs[last] == x then {last} else {})
  {
  }

  /** When every position is accepted, everything is kept. */
  lemma {:induction false} KeptAll<T>(xs: seq<T>, ok: nat -> bool)
    requires forall i :: 0 <= i < |xs| ==> ok(i)
    ensures Kept(xs, ok) == multiset(xs)
    decreases |xs|
  {
    if xs != [] {
      var last := |xs| - 1;
      KeptAll(xs[..last], ok);
      assert xs == xs[..last] + [xs[last]];
    }
  }

  /** With the query `query`, the handler gets past the `DELETE`: the
      prior rows are gone. */
  predicate Cleared(env: Env, query: Query) {
    && TokenAccepted(env, TokenOf(env.authorization))
    && env.upstream(query).Delivered?
    && env.certReadOk && env.connectOk && env.deleteOk
  }

  /** The handler once the query is known (lines 48-180). */
  function Handle(table: multiset<StoredFixture>, env: Env, query: Query): (r: Outcome)
    // the auth gate: 401 exactly when the verifier does not accept the
    // token, and then nothing but the check happens
    ensures r.status == Unauthorized <==> !TokenAccepted(env, TokenOf(env.authorization))
    ensures r.status == Unauthorized ==>
      r.table == table && r.effects == [CheckToken(TokenOf(env.authorization))]
    // past the gate, the second operation is the fetch of the query
    ensures r.status != Unauthorized ==> |r.effects| >= 2 && r.effects[1] == Fetch(query)
    // the table changes only through the delete
    ensures DeleteAll !in r.effects ==> r.table == table
  {
    var token := TokenOf(env.authorization);
    if !TokenAccepted(env, token) then
      Outcome(Unauthorized, table, [CheckToken(token)])
    else
      match env.upstream(query)
      case Unreachable => Outcome(ServiceUnavailable, table, [CheckToken(token), Fetch(query)])
      case Delivered(body) =>
        if !env.certReadOk then
          Outcome(ServiceUnavailable, table, [CheckToken(token), Fetch(query), ReadCert])
        else if !env.connectOk then
          Outcome(ServiceUnavailable, table, [CheckToken(token), Fetch(query), ReadCert, Connect])
        else
          var deleted := [CheckToken(token), Fetch(query), ReadCert, Connect, DeleteAll];
          if !env.deleteOk then
            Outcome(ServiceUnavailable, table, deleted)
          else
            match body
            case None => Outcome(ServiceUnavailable, multiset{}, deleted)
            case Some(fixtures) => Outcome(Ok, Kept(Rows(fixtures), env.insertOk), deleted + InsertEffects(Rows(fixtures)))
  }

  /** One run of the handler: the query for today's week, then the rest. */
  function Run(table: multiset<StoredFixture>, env: Env): Outcome
    requires Valid(env.today)
  {
    Handle(table, env, WeekQuery(env.today))
  }

  // ---------------------------------------------------------------------
  // Properties of one run
  // ---------------------------------------------------------------------

  /** Fail-safe ordering: the delete is attempted at most once, and only
      after the token check, the fetch, the certificate read and the
      connect have all succeeded. */
  lemma DeleteAfterFetchAndConnect(table: multiset<StoredFixture>, env: Env, query: Query)
    ensures var r := Handle(table, env, query);
      DeleteAll in r.effects ==>
        && |r.effects| >= 5
        && r.effects[..5] == [CheckToken(TokenOf(env.authorization)), Fetch(query), ReadCert, Connect, DeleteAll]
        && DeleteAll !in r.effects[5..]
        && TokenAccepted(env, TokenOf(env.authorization)) && env.upstream(query).Delivered?
        && env.certReadOk && env.connectOk
  {
    var r := Handle(table, env, query);
    if Cleared(env, query) && env.upstream(query).fixtures.Some? {
      var inserts := InsertEffects(Rows(env.upstream(query).fixtures.value));
      assert r.effects[5..] == inserts;
      NoDeleteAmongInserts(inserts);
    }
  }

  lemma NoDeleteAmongInserts(effects: seq<Effect>)
    requires forall i :: 0 <= i < |effects| ==> effects[i].Insert?
    ensures DeleteAll !in effects
  {
  }

  /** Without getting past the delete the table is untouched and the
      response is an error. */
  lemma NotClearedKeepsTable(table: multiset<StoredFixture>, env: Env, query: Query)
    requires !Cleared(env, query)
    ensures Handle(table, env, query).table == table && Handle(table, env, query).status != Ok
  {
  }

  /** Full replacement: once the delete ran and a fixture array came back,
      the table holds the rows of the successful inserts and nothing else,
      the response is 200 whatever the inserts did, and the inserts follow
      the delete in list order. */
  lemma FullReplacement(table: multiset<StoredFixture>, env: Env, query: Query)
    requires Cleared(env, query) && env.upstream(query).fixtures.Some?
    ensures var fixtures := env.upstream(query).fixtures.value;
      var r := Handle(table, env, query);
      && r.status == Ok
      && r.table == Kept(Rows(fixtures), env.insertOk)
      && r.effects == [CheckToken(TokenOf(env.authorization)), Fetch(query), ReadCert, Connect, DeleteAll]
           + InsertEffects(Rows(fixtures))
  {
  }

  /** A body without a fixture array is noticed only after the delete: the
      response is 503 and the table is left empty. */
  lemma MalformedBodyEmptiesTable(table: multiset<StoredFixture>, env: Env, query: Query)
    requires Cleared(env, query) && env.upstream(query).fixtures.None?
    ensures Handle(table, env, query).status == ServiceUnavailable
    ensures Handle(table, env, query).table == multiset{}
    ensures DeleteAll in Handle(table, env, query).effects
  {
    var r := Handle(table, env, query);
    assert r.effects[4] == DeleteAll;
  }

  /** No header, a header without a space, or nothing between the first
      space and the next: the request is turned away with 401 and nothing
      but the token check happens. */
  lemma MissingTokenUnauthorized(table: multiset<StoredFixture>, env: Env, query: Query)
    requires ' ' !in HeaderText(env.authorization) || TokenOf(env.authorization) == Some("")
    ensures Handle(table, env, query).status == Unauthorized
    ensures Handle(table, env, query).table == table
    ensures Handle(table, env, query).effects == [CheckToken(TokenOf(env.authorization))]
  {
  }

  /** The run asks the provider for this week, Sunday to Saturday, in the
      season the Saturday falls in. */
  lemma RunFetchesThisWeek(table: multiset<StoredFixture>, env: Env)
    requires Valid(env.today)
    ensures var r := Run(table, env);
      r.status != Unauthorized ==> |r.effects| >= 2 && r.effects[1] == Fetch(WeekQuery(env.today))
  {
  }

  /** The query covers this week, Sunday to Saturday, and names the season
      the Saturday falls in. */
  lemma QueryWindow(today: CivilDate)
    requires Valid(today)
    ensures var q := WeekQuery(today);
      && q.league == "39" && q.timezone == "America/Los_Angeles"
      && ParseDate(q.from) == Some(WeekStart(today)) && DayOfWeek(WeekStart(today)) == 0
      && ParseDate(q.to) == Some(WeekEnd(today)) && DayOfWeek(WeekEnd(today)) == 6
      && DayNumber(WeekStart(today)) <= DayNumber(today) <= DayNumber(WeekEnd(today))
      && q.season == SeasonOf(WeekEnd(today))
  {
    ParseFormatDate(WeekStart(today));
    ParseFormatDate(WeekEnd(today));
  }

  // ---------------------------------------------------------------------
  // Properties across runs
  // ---------------------------------------------------------------------

  /** Once the delete has run, the prior table makes no difference. */
  lemma PriorTableIrrelevant(t1: multiset<StoredFixture>, t2: multiset<StoredFixture>, env: Env, query: Query)
    requires Cleared(env, query)
    ensures Handle(t1, env, query) == Handle(t2, env, query)
  {
  }

  /** No row survives from before: every row in the table after a run that
      got past the delete belongs to a fixture of this run whose insert
      succeeded, and every such row is there. */
  lemma NoPriorRowSurvives(table: multiset<StoredFixture>, env: Env, query: Query, row: StoredFixture)
    requires Cleared(env, query) && env.upstream(query).fixtures.Some?
    ensures var fixtures := env.upstream(query).fixtures.value;
      row in Handle(table, env, query).table <==>
        exists i :: 0 <= i < |fixtures| && env.insertOk(i) && ToStoredFixture(fixtures[i]) == row
  {
    var fixtures := env.upstream(query).fixtures.value;
    KeptMembers(Rows(fixtures), env.insertOk, row);
  }

  /** When every insert succeeds, the table is exactly the rows of the
      delivered fixtures. */
  lemma AllInsertsSucceed(table: multiset<StoredFixture>, env: Env, query: Query)
    requires Cleared(env, query) && env.upstream(query).fixtures.Some?
    requires forall i :: 0 <= i < |env.upstream(query).fixtures.value| ==> env.insertOk(i)
    ensures var fixtures := env.upstream(query).fixtures.value;
      Handle(table, env, query).status == Ok && Handle(table, env, query).table == multiset(Rows(fixtures))
  {
    var fixtures := env.upstream(query).fixtures.value;
    KeptAll(Rows(fixtures), env.insertOk);
  }

  /** Insert failures are invisible in the response: whichever inserts
      fail, the same status comes back and the same operations are
      attempted. */
  lemma InsertOutcomesInvisible(table: multiset<StoredFixture>, env: Env, query: Query, ok: nat -> bool)
    ensures Handle(table, env, query).status == Handle(table, env.(insertOk := ok), query).status
    ensures Handle(table, env, query).effects == Handle(table, env.(insertOk := ok), query).effects
  {
  }

  /** A second run with the same world changes nothing the first did not:
      either the first got past the delete, and the prior table does not
      matter, or it left the table as it was. */
  lemma HandleIdempotent(table: multiset<StoredFixture>, env: Env, query: Query)
    ensures Handle(Handle(table, env, query).table, env, query) == Handle(table, env, query)
  {
    var r := Handle(table, env, query);
    if Cleared(env, query) {
      PriorTableIrrelevant(r.table, table, env, query);
    } else {
      NotClearedKeepsTable(table, env, query);
    }
  }

  /** The same for a whole run, query included. */
  lemma RunIdempotent(table: multiset<StoredFixture>, env: Env)
    requires Valid(env.today)
    ensures Run(Run(table, env).table, env) == Run(table, env)
  {
    HandleIdempotent(table, env, WeekQuery(env.today));
  }

  /** An empty fixture list still empties the table and reports success. */
  lemma EmptyListEmptiesTable(table: multiset<StoredFixture>, env: Env, query: Query)
    requires Cleared(env, query) && env.upstream(query).fixtures == Some([])
    ensures Handle(table, env, query).status == Ok && Handle(table, env, query).table == multiset{}
  {
  }

  /** Two delivered fixtures, both inserted: the table holds exactly their
      two rows and the response is 200. */
  lemma TwoFixturesStored(table: multiset<StoredFixture>, env: Env, query: Query, a: FixtureRecord, b: FixtureRecord)
    requires Cleared(env, query) && env.upstream(query).fixtures == Some([a, b])
    requires env.insertOk(0) && env.insertOk(1)
    ensures Handle(table, env, query).status.Code() == 200
    ensures Handle(table, env, query).table == multiset{ToStoredFixture(a), ToStoredFixture(b)}
  {
    FullReplacement(table, env, query);
    RowsOfTwo(a, b);
    KeptTwo(ToStoredFixture(a), ToStoredFixture(b), env.insertOk);
  }

  lemma RowsOfTwo(a: FixtureRecord, b: FixtureRecord)
    ensures Rows([a, b]) == [ToStoredFixture(a), ToStoredFixture(b)]
  {
    var rows := Rows([a, b]);
    assert |rows| == 2 && rows[0] == ToStoredFixture(a) && rows[1] == ToStoredFixture(b);
  }

  lemma KeptTwo<T>(x: T, y: T, ok: nat -> bool)
    requires ok(0) && ok(1)
    ensures Kept([x, y], ok) == multiset{x, y}
  {
    assert [x, y][..1] == [x] && [x][..0] == [];
  }
}
