/** The filter of `get_usage_stats` in usage_reporting_bot.py (lines
    204-224): up to three conditions, in a fixed order, joined into a
    WHERE clause with named parameters; the end date is pushed one day
    later so that the whole end day is included. Times are whole seconds. */
module Where {
  import opened Wrappers
  import Text

  const SecondsPerDay: int := 86400

  /** The optional arguments of `get_usage_stats`. */
  datatype Filters = Filters(userEmail: Option<string>, start: Option<int>, end: Option<int>)

  /** `if user_email:` — an empty address filters nothing. */
  predicate HasEmail(f: Filters) {
    f.userEmail.Some? && f.userEmail.value != ""
  }

  const EmailCondition: string := "user_email = :user_email"
  const StartCondition: string := "timestamp >= :start_date"
  const EndCondition: string := "timestamp < :end_date"

  datatype Param = Email(address: string) | Time(seconds: int)

  /** `where_conditions` and `params` after lines 207-219. */
  datatype Query = Query(conditions: seq<string>, params: map<string, Param>)

  function Build(f: Filters): (q: Query)
    // the conditions appear in this order, each exactly when its filter is given
    ensures q.conditions == (if HasEmail(f) then [EmailCondition] else [])
                            + (if f.start.Some? then [StartCondition] else [])
                            + (if f.end.Some? then [EndCondition] else [])
    ensures "user_email" in q.params <==> HasEmail(f)
    ensures "start_date" in q.params <==> f.start.Some?
    ensures "end_date" in q.params <==> f.end.Some?
    ensures HasEmail(f) ==> q.params["user_email"] == Email(f.userEmail.value)
    ensures f.start.Some? ==> q.params["start_date"] == Time(f.start.value)
    ensures f.end.Some? ==> q.params["end_date"] == Time(f.end.value + SecondsPerDay)
    ensures q.params.Keys <= {"user_email", "start_date", "end_date"}
  {
    var q0 := Query([], map[]);
    var q1 := if HasEmail(f) then Query(q0.conditions + [EmailCondition], q0.params["user_email" := Email(f.userEmail.value)]) else q0;
    var q2 := if f.start.Some? then Query(q1.conditions + [StartCondition], q1.params["start_date" := Time(f.start.value)]) else q1;
    if f.end.Some? then Query(q2.conditions + [EndCondition], q2.params["end_date" := Time(f.end.value + SecondsPerDay)]) else q2
  }

  /** Lines 221-223. */
  function Clause(q: Query): (text: string)
    ensures text == "" <==> q.conditions == []
    ensures q.conditions != [] ==> text == "WHERE " + Text.Join(q.conditions, " AND ")
  {
    if q.conditions == [] then "" else "WHERE " + Text.Join(q.conditions, " AND ")
  }

  /** The clause text for each combination of filters: "WHERE " and the
      conditions of the filters given, in order, with " AND " between two
      neighbours; nothing at all when no filter is given. */
  lemma ClauseOfFilters(f: Filters)
    ensures var e, s, t := HasEmail(f), f.start.Some?, f.end.Some?;
            Clause(Build(f)) ==
              if !e && !s && !t then ""
              else "WHERE "
                   + (if e then EmailCondition else "") + (if e && (s || t) then " AND " else "")
                   + (if s then StartCondition else "") + (if s && t then " AND " else "")
                   + (if t then EndCondition else "")
  {
    var cs := Build(f).conditions;
    if |cs| == 2 {
      JoinTwo(cs[0], cs[1]);
      assert cs == [cs[0], cs[1]];
    } else if |cs| == 3 {
      JoinTwo(cs[1], cs[2]);
      assert cs[1..] == [cs[1], cs[2]];
    }
  }

  lemma JoinTwo(a: string, b: string)
    ensures Text.Join([a, b], " AND ") == a + " AND " + b
  {
    assert [a, b][1..] == [b];
  }

  // ---------------------------------------------------------------------
  // What the clause selects

  /** The columns of a `usage_costs` row the clause looks at. */
  datatype UsageRow = UsageRow(userEmail: string, timestamp: int)

  /** What the database makes of one condition with the given parameters;
      `None` for a condition it cannot evaluate (an unbound parameter or an
      unknown condition). */
  function Eval(condition: string, params: map<string, Param>, row: UsageRow): Option<bool> {
    if condition == EmailCondition then
      if "user_email" in params && params["user_email"].Email? then Some(row.userEmail == params["user_email"].address) else None
    else if condition == StartCondition then
      if "start_date" in params && params["start_date"].Time? then Some(row.timestamp >= params["start_date"].seconds) else None
    else if condition == EndCondition then
      if "end_date" in params && params["end_date"].Time? then Some(row.timestamp < params["end_date"].seconds) else None
    else None
  }

  /** Every condition can be evaluated: each placeholder has its parameter. */
  ghost predicate Bound(q: Query) {
    forall row: UsageRow, i :: 0 <= i < |q.conditions| ==> Eval(q.conditions[i], q.params, row).Some?
  }

  /** The row passes every condition. */
  predicate Selects(q: Query, row: UsageRow) {
    forall i :: 0 <= i < |q.conditions| ==> Eval(q.conditions[i], q.params, row) == Some(true)
  }

  lemma ConditionsDistinct()
    ensures EmailCondition != StartCondition && EmailCondition != EndCondition && StartCondition != EndCondition
  {
    assert EmailCondition[0] == 'u' && StartCondition[0] == 't';
    assert StartCondition[10] == '>' && EndCondition[10] == '<';
  }

  /** The built query binds every placeholder it uses, and selects a row
      exactly when the row's address is the one asked for (if any) and
      its timestamp lies in `[start, end + one day)` (each bound if given). */
  lemma BuildSelects(f: Filters, row: UsageRow)
    ensures Bound(Build(f))
    ensures Selects(Build(f), row) <==>
              && (HasEmail(f) ==> row.userEmail == f.userEmail.value)
              && (f.start.Some? ==> f.start.value <= row.timestamp)
              && (f.end.Some? ==> row.timestamp < f.end.value + SecondsPerDay)
  {
    ConditionsDistinct();
    var q := Build(f);
    var e := if HasEmail(f) then [EmailCondition] else [];
    var s := if f.start.Some? then [StartCondition] else [];
    var t := if f.end.Some? then [EndCondition] else [];
    assert q.conditions == (e + s) + t;
    assert Selects(q, row) == Passes(q.conditions, q.params, row);
    PassesAppend(e + s, t, q.params, row);
    PassesAppend(e, s, q.params, row);
    PassesSingle(EmailCondition, q.params, row);
    PassesSingle(StartCondition, q.params, row);
    PassesSingle(EndCondition, q.params, row);
    forall row': UsageRow, i | 0 <= i < |q.conditions| ensures Eval(q.conditions[i], q.params, row').Some? {
      assert q.conditions[i] in e + s + t;
    }
  }

  /** Every condition of `cs` evaluates to true. */
  predicate Passes(cs: seq<string>, params: map<string, Param>, row: UsageRow) {
    forall i :: 0 <= i < |cs| ==> Eval(cs[i], params, row) == Some(true)
  }

  lemma PassesSingle(c: string, params: map<string, Param>, row: UsageRow)
    ensures Passes([c], params, row) <==> Eval(c, params, row) == Some(true)
  {
    assert [c][0] == c;
  }

  lemma PassesAppend(a: seq<string>, b: seq<string>, params: map<string, Param>, row: UsageRow)
    ensures Passes(a + b, params, row) <==> Passes(a, params, row) && Passes(b, params, row)
  {
    if Passes(a + b, params, row) {
      forall i | 0 <= i < |b| ensures Eval(b[i], params, row) == Some(true) {
        assert b[i] == (a + b)[|a| + i];
      }
      forall i | 0 <= i < |a| ensures Eval(a[i], params, row) == Some(true) {
        assert a[i] == (a + b)[i];
      }
    }
  }

  /** With no filter at all the clause is empty and every row is selected. */
  lemma NoFiltersSelectAll(row: UsageRow)
    ensures Clause(Build(Filters(None, None, None))) == ""
    ensures Selects(Build(Filters(None, None, None)), row)
  {
  }

  /** The filters the report generators pass (lines 295-300 and 402-407):
      the last `days` days up to `now`, for one address or for everyone. */
  function ReportFilters(now: int, days: int, userEmail: Option<string>): (f: Filters)
    ensures f.start == Some(now - days * SecondsPerDay) && f.end == Some(now)
    ensures f.userEmail == userEmail
  {
    Filters(userEmail, Some(now - days * SecondsPerDay), Some(now))
  }

  /** A report selects the rows stamped from `days` days before `now` to
      one day after `now`, excluded, for the requested address. */
  lemma ReportWindow(now: int, days: int, email: string, row: UsageRow)
    requires email != ""
    ensures var q := Build(ReportFilters(now, days, Some(email)));
            && Clause(q) == "WHERE " + EmailCondition + " AND " + StartCondition + " AND " + EndCondition
            && (Selects(q, row) <==>
                  row.userEmail == email && now - days * SecondsPerDay <= row.timestamp < now + SecondsPerDay)
  {
    var f := ReportFilters(now, days, Some(email));
    BuildSelects(f, row);
    ClauseOfFilters(f);
  }

  /** An empty address is no address: a report for "" selects every
      user's rows in the window, like the all-users report. */
  lemma EmptyEmailSelectsEveryone(now: int, days: int, row: UsageRow)
    ensures Build(ReportFilters(now, days, Some(""))) == Build(ReportFilters(now, days, None))
    ensures Selects(Build(ReportFilters(now, days, Some(""))), row) <==>
              now - days * SecondsPerDay <= row.timestamp < now + SecondsPerDay
  {
    BuildSelects(ReportFilters(now, days, Some("")), row);
  }

  /** The all-users report has no address condition and selects every row
      in the same window. */
  lemma AllUsersWindow(now: int, days: int, row: UsageRow)
    ensures var q := Build(ReportFilters(now, days, None));
            && Clause(q) == "WHERE " + StartCondition + " AND " + EndCondition
            && (Selects(q, row) <==> now - days * SecondsPerDay <= row.timestamp < now + SecondsPerDay)
  {
    var f := ReportFilters(now, days, None);
    BuildSelects(f, row);
    ClauseOfFilters(f);
  }
}
