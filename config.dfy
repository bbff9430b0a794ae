/** The static configuration of the service: the snapshot jobs with their
    column type mappings, the schedule expression chosen by SCHEDULE_MODE and
    the recipient list read from NOTIFY_TO. Environment variables are
    parameters: None when the variable is unset. */
module Config {
  import opened Wrappers
  import opened JsText
  import opened Coercion

  /** One snapshot job: a query and the table that receives its rows. */
  datatype Job = Job(name: string, query: string, destination: string, fieldMappings: map<string, SqlType>)

  const Max: Option<nat> := None

  const PrebillsHistoryTypes: map<string, SqlType> := map[
    "id" := BigInt,
    "state" := NVarChar(Max),
    "reviewed_at" := DateTime,
    "issued_at" := DateTime,
    "sent_at" := DateTime,
    "invoiced_at" := DateTime,
    "partial_payment_at" := DateTime,
    "payment_at" := DateTime,
    "from_date" := Date,
    "to_date" := Date,
    "client_code" := NVarChar(Max),
    "amount" := Float,
    "agreement_id" := BigInt,
    "rate_currency_id" := BigInt,
    "amount_currency_id" := BigInt,
    "base_currency_id" := BigInt,
    "exchange_rate" := Float,
    "discount_type" := NVarChar(Max),
    "discount_percentage" := Float,
    "discount_amount" := Float,
    "billing_strategy" := NVarChar(Max),
    "user_id" := BigInt,
    "responsible_user_id" := BigInt,
    "secondary_responsible_user_id" := BigInt,
    "total_minutes_billed" := Int,
    "total_minutes_worked" := Int,
    "honorarium_amount" := Float,
    "honorarium_vat" := Float,
    "honorarium_tax_percentage" := Float,
    "expenses_amount" := Float,
    "expenses_vat" := Float,
    "expenses_tax_percentage" := Float,
    "includes_honorarium" := Bit,
    "includes_expenses" := Bit,
    "billing_currency_id" := BigInt,
    "created_at" := DateTime,
    "updated_at" := DateTime,
    "last_update_time" := DateTime,
    "snapshot_date" := Date
  ]

  const TimeEntriesHistoryTypes: map<string, SqlType> := map[
    "id" := BigInt,
    "project_code" := NVarChar(Some(255)),
    "user_id" := BigInt,
    "activity_name" := NVarChar(Some(255)),
    "duration" := Float,
    "formatted_duration" := NVarChar(Some(50)),
    "billable_duration" := Float,
    "formatted_billable_duration" := NVarChar(Some(50)),
    "billable" := Bit,
    "visible" := Bit,
    "prebill_id" := BigInt,
    "date" := Date,
    "reviewed" := Bit,
    "currency_id" := BigInt,
    "billed_amount" := Float,
    "description" := NVarChar(Max),
    "hours_cost" := Float,
    "hours_base_currency_cost" := Float,
    "hours_rate" := Float,
    "hours_standard_rate" := Float,
    "billing_status" := NVarChar(Some(100)),
    "created_at" := DateTime,
    "updated_at" := DateTime,
    "last_update_time" := DateTime,
    "snapshot_date" := Date
  ]

  /** `a || b` on an environment variable: unset and empty both fall back. */
  function EnvOr(env: Option<string>, default: string): (r: string)
    ensures env.Some? && env.value != "" ==> r == env.value
    ensures env.None? || env.value == "" ==> r == default
  {
    if env.Some? && env.value != "" then env.value else default
  }

  /** JOBS, given the four environment variables that override the default
      queries and destination tables. */
  function Jobs(timeEntriesQuery: Option<string>, timeEntriesTable: Option<string>,
                prebillsQuery: Option<string>, prebillsTable: Option<string>): (jobs: seq<Job>)
    ensures |jobs| == 2
    ensures jobs[0].name == "Time Entries" && jobs[1].name == "Prebills"
    ensures jobs[0].fieldMappings == TimeEntriesHistoryTypes && jobs[1].fieldMappings == PrebillsHistoryTypes
    ensures jobs[0].destination == EnvOr(timeEntriesTable, "time_entries_history")
    ensures jobs[1].destination == EnvOr(prebillsTable, "prebills_history")
    ensures jobs[0].query == EnvOr(timeEntriesQuery, "SELECT * FROM time_entries")
    ensures jobs[1].query == EnvOr(prebillsQuery, "SELECT * FROM prebills")
  {
    [ Job("Time Entries", EnvOr(timeEntriesQuery, "SELECT * FROM time_entries"),
          EnvOr(timeEntriesTable, "time_entries_history"), TimeEntriesHistoryTypes),
      Job("Prebills", EnvOr(prebillsQuery, "SELECT * FROM prebills"),
          EnvOr(prebillsTable, "prebills_history"), PrebillsHistoryTypes) ]
  }

  /* ---------- CRON_EXPR ---------- */

  const DailyCron := "0 6 * * *"
  const MonthlyCron := "0 3 1 * *"

  /** What `CRON_EXPRESSIONS[mode] || CRON_EXPRESSIONS.daily` yields: a cron
      text, or, for the lower-case names of members that every object
      inherits, that inherited member, which is not a cron text. */
  datatype CronSetting = Expression(text: string) | InheritedMember(key: string)

  predicate IsInheritedKey(mode: string) {
    mode == "constructor" || mode == "__proto__"
  }

  function ScheduleMode(env: Option<string>): string {
    Lower(EnvOr(env, "daily"))
  }

  /** CRON_EXPR for a given SCHEDULE_MODE variable. */
  function CronExpr(env: Option<string>): (r: CronSetting)
    ensures r.InheritedMember? <==> IsInheritedKey(ScheduleMode(env))
    ensures r.Expression? ==> r.text == DailyCron || r.text == MonthlyCron
    ensures r == Expression(MonthlyCron) <==> ScheduleMode(env) == "monthly"
  {
    var mode := ScheduleMode(env);
    if mode == "daily" then Expression(DailyCron)
    else if mode == "monthly" then Expression(MonthlyCron)
    else if IsInheritedKey(mode) then InheritedMember(mode)
    else Expression(DailyCron)
  }

  /** An unset or empty SCHEDULE_MODE, and any mode that is not a known
      name, schedules the daily run. */
  lemma CronDefaultsToDaily(env: Option<string>)
    requires ScheduleMode(env) != "monthly" && !IsInheritedKey(ScheduleMode(env))
    ensures CronExpr(env) == Expression(DailyCron)
  {
  }

  lemma CronIgnoresCase()
    ensures CronExpr(Some("MONTHLY")) == Expression(MonthlyCron)
    ensures CronExpr(None) == Expression(DailyCron)
  {
    assert Lower("MONTHLY") == "monthly";
    assert Lower("daily") == "daily";
  }

  /* ---------- NOTIFY_TO ---------- */

  /** `map((s) => s.trim())`. */
  function TrimAll(xs: seq<string>): seq<string> {
    seq(|xs|, i requires 0 <= i < |xs| => Trim(xs[i]))
  }

  /** `filter(Boolean)` on strings: keeps the non-empty ones, in order. */
  function NonEmpty(xs: seq<string>): (r: seq<string>)
    ensures forall x :: x in r <==> x in xs && x != ""
    ensures (forall x :: x in xs ==> x != "") ==> r == xs
    ensures |r| <= |xs|
  {
    if xs == [] then []
    else if xs[0] == "" then
      assert xs[0] in xs;
      NonEmpty(xs[1..])
    else
      assert forall x :: x in xs[1..] ==> x in xs;
      [xs[0]] + NonEmpty(xs[1..])
  }

  /** Dropping the empty strings keeps the order: it works piece by piece. */
  lemma {:induction false} NonEmptyAppend(xs: seq<string>, ys: seq<string>)
    ensures NonEmpty(xs + ys) == NonEmpty(xs) + NonEmpty(ys)
    decreases |xs|
  {
    if xs == [] {
      assert xs + ys == ys;
    } else {
      assert (xs + ys)[0] == xs[0] && (xs + ys)[1..] == xs[1..] + ys;
      NonEmptyAppend(xs[1..], ys);
      if xs[0] != "" {
        assert [xs[0]] + (NonEmpty(xs[1..]) + NonEmpty(ys)) == [xs[0]] + NonEmpty(xs[1..]) + NonEmpty(ys);
      }
    }
  }

  /** NOTIFY_TO: the comma-separated addresses, trimmed, empty ones dropped. */
  function Recipients(env: Option<string>): (r: seq<string>)
    ensures forall a :: a in r ==> a != "" && ',' !in a
    ensures forall a :: a in r ==> !IsJsSpace(a[0]) && !IsJsSpace(a[|a| - 1])
  {
    var pieces := Split(EnvOr(env, ""), ',');
    TrimAllPieces(pieces);
    NonEmpty(TrimAll(pieces))
  }

  /** Each trimmed piece of a comma split is trimmed and holds no comma. */
  lemma TrimAllPieces(pieces: seq<string>)
    requires forall p :: p in pieces ==> ',' !in p
    ensures forall a :: a in TrimAll(pieces) ==>
      ',' !in a && (a == [] || (!IsJsSpace(a[0]) && !IsJsSpace(a[|a| - 1])))
  {
    var trimmed := TrimAll(pieces);
    forall a | a in trimmed
      ensures ',' !in a && (a == [] || (!IsJsSpace(a[0]) && !IsJsSpace(a[|a| - 1])))
    {
      var i :| 0 <= i < |trimmed| && trimmed[i] == a;
      TrimKeepsOut(pieces[i], ',');
    }
  }

  lemma TrimAllUntouched(addrs: seq<string>)
    requires forall a :: a in addrs ==> a != "" && !IsJsSpace(a[0]) && !IsJsSpace(a[|a| - 1])
    ensures TrimAll(addrs) == addrs
  {
    forall i | 0 <= i < |addrs| ensures Trim(addrs[i]) == addrs[i] {
      TrimUntouched(addrs[i]);
    }
  }

  /** Reading back a list that was written with commas gives the list, as
      long as each address is non-empty, holds no comma and has no white
      space at either end. */
  lemma RecipientsOfJoined(addrs: seq<string>)
    requires |addrs| >= 1
    requires forall a :: a in addrs ==> a != "" && ',' !in a && !IsJsSpace(a[0]) && !IsJsSpace(a[|a| - 1])
    ensures Recipients(Some(Join(addrs, ','))) == addrs
  {
    var text := Join(addrs, ',');
    SplitJoin(addrs, ',');
    JoinHoldsFirst(addrs, ',');
    assert EnvOr(Some(text), "") == text;
    TrimAllUntouched(addrs);
    assert NonEmpty(addrs) == addrs;
  }

  lemma JoinHoldsFirst(parts: seq<string>, sep: char)
    requires |parts| >= 1
    ensures |Join(parts, sep)| >= |parts[0]|
  {
  }
}
