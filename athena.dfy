/** `fetchAllAthenaResults`: start the query, poll its state with a capped
    linear backoff until it leaves QUEUED/RUNNING, then read every result
    page. The remote service is a script of answers: the i-th status request
    gets `statuses[i]` and the i-th page request gets `pages[i]`; a request
    past the end of the script fails as the client call would. */
module Athena {
  import opened Wrappers
  import opened Coercion
  import opened Seqs

  datatype QueryState = Queued | Running | Succeeded | Failed | Cancelled

  /** `VarCharValue` of one cell, when present. */
  datatype Datum = Datum(varCharValue: Option<string>)

  /** One row of a page; `data` is None when the row has no `Data`. */
  datatype ResultRow = ResultRow(data: Option<seq<Datum>>)

  /** One page; `rows` is None when `ResultSet` or its `Rows` is missing. */
  datatype Page = Page(rows: Option<seq<ResultRow>>, nextToken: Option<string>)

  datatype Remote = Remote(statuses: seq<QueryState>, pages: seq<Page>)

  datatype FetchError =
    | QueryFailed(state: QueryState)  // "Athena query failed: <state>"
    | ServiceError                    // a client call failed

  const InitialBackoff: nat := 1500
  const BackoffStep: nat := 500
  const BackoffCap: nat := 8000

  predicate Pending(s: QueryState) {
    s == Running || s == Queued
  }

  /** The pause before the poll numbered `k` (from 0). */
  function Backoff(k: nat): nat {
    if InitialBackoff + BackoffStep * k < BackoffCap then InitialBackoff + BackoffStep * k else BackoffCap
  }

  function PollDelays(n: nat): (d: seq<nat>)
    ensures |d| == n
    ensures forall k :: 0 <= k < n ==> d[k] == Backoff(k)
  {
    seq(n, k requires 0 <= k < n => Backoff(k))
  }

  /** Every pause lies between 1.5 s and 8 s, and pauses never shrink. */
  lemma BackoffBounds(k: nat)
    ensures InitialBackoff <= Backoff(k) <= BackoffCap
    ensures Backoff(k) <= Backoff(k + 1)
    ensures k >= 13 ==> Backoff(k) == BackoffCap
  {
  }

  /** The index of the first status that is neither QUEUED nor RUNNING. */
  function SettledAt(statuses: seq<QueryState>): (r: Option<nat>)
    ensures r.Some? ==> r.value < |statuses| && !Pending(statuses[r.value])
    ensures r.Some? ==> forall j :: 0 <= j < r.value ==> Pending(statuses[j])
    ensures r.None? ==> forall j :: 0 <= j < |statuses| ==> Pending(statuses[j])
  {
    if statuses == [] then None
    else if !Pending(statuses[0]) then Some(0)
    else match SettledAt(statuses[1..])
      case None => None
      case Some(k) => Some(k + 1)
  }

  /** How many status requests the poll loop makes. */
  function PollCount(statuses: seq<QueryState>): nat {
    match SettledAt(statuses)
    case Some(k) => k + 1
    case None => |statuses| + 1
  }

  /** `while (nextToken)`: an absent or empty token ends the paging. */
  predicate HasNext(p: Page) {
    p.nextToken.Some? && p.nextToken.value != ""
  }

  /** The index of the first page that carries no further token. */
  function LastPage(pages: seq<Page>): (r: Option<nat>)
    ensures r.Some? ==> r.value < |pages| && !HasNext(pages[r.value])
    ensures r.Some? ==> forall j :: 0 <= j < r.value ==> HasNext(pages[j])
    ensures r.None? ==> forall j :: 0 <= j < |pages| ==> HasNext(pages[j])
  {
    if pages == [] then None
    else if !HasNext(pages[0]) then Some(0)
    else match LastPage(pages[1..])
      case None => None
      case Some(k) => Some(k + 1)
  }

  lemma LastPageNone(pages: seq<Page>)
    requires forall j :: 0 <= j < |pages| ==> HasNext(pages[j])
    ensures LastPage(pages).None?
  {
  }

  lemma LastPageAt(pages: seq<Page>, m: nat)
    requires m < |pages| && !HasNext(pages[m])
    requires forall j :: 0 <= j < m ==> HasNext(pages[j])
    ensures LastPage(pages) == Some(m)
  {
  }

  /** `d.VarCharValue ?? null`. */
  function CellOf(d: Datum): Value {
    match d.varCharValue
    case Some(s) => Str(s)
    case None => Null
  }

  function RowOf(r: ResultRow): seq<Value> {
    match r.data
    case None => []
    case Some(ds) => seq(|ds|, i requires 0 <= i < |ds| => CellOf(ds[i]))
  }

  /** The rows of one page, each cell text or null. */
  function PageRows(p: Page): seq<seq<Value>> {
    match p.rows
    case None => []
    case Some(rs) => seq(|rs|, i requires 0 <= i < |rs| => RowOf(rs[i]))
  }

  /** All rows of the given pages, in page order. */
  function ConcatRows(ps: seq<Page>): seq<seq<Value>> {
    if ps == [] then [] else ConcatRows(ps[..|ps| - 1]) + PageRows(ps[|ps| - 1])
  }

  /** What `fetchAllAthenaResults` returns or throws for a scripted remote. */
  function FetchOutcome(remote: Remote): (r: Result<seq<seq<Value>>, FetchError>)
    ensures r.Failure? && r.error.QueryFailed? ==> r.error.state == Failed || r.error.state == Cancelled
    ensures r == Failure(ServiceError) <==>
      || (forall j :: 0 <= j < |remote.statuses| ==> Pending(remote.statuses[j]))
      || (SettledAt(remote.statuses).Some? && remote.statuses[SettledAt(remote.statuses).value] == Succeeded
          && forall j :: 0 <= j < |remote.pages| ==> HasNext(remote.pages[j]))
  {
    match SettledAt(remote.statuses)
    case None => Failure(ServiceError)
    case Some(k) =>
      if remote.statuses[k] != Succeeded then Failure(QueryFailed(remote.statuses[k]))
      else match LastPage(remote.pages)
        case None => Failure(ServiceError)
        case Some(m) => Success(ConcatRows(remote.pages[..m + 1]))
  }

  /** The poll loop: pause, ask for the state, lengthen the pause by 0.5 s
      while it is under 8 s; stop once the state is neither QUEUED nor
      RUNNING. `settled` is None when a status request failed. */
  method PollUntilSettled(statuses: seq<QueryState>) returns (settled: Option<QueryState>, sleeps: seq<nat>)
    ensures settled == (match SettledAt(statuses) case None => None case Some(k) => Some(statuses[k]))
    ensures sleeps == PollDelays(PollCount(statuses))
  {
    var state := Running;
    var backoff := InitialBackoff;
    var polled := 0;
    sleeps := [];
    while Pending(state)
      invariant 0 <= polled <= |statuses|
      invariant backoff == Backoff(polled)
      invariant sleeps == PollDelays(polled)
      invariant forall j :: 0 <= j < polled - 1 ==> Pending(statuses[j])
      invariant polled == 0 ==> state == Running
      invariant polled > 0 ==> state == statuses[polled - 1]
      decreases |statuses| - polled
    {
      sleeps := sleeps + [backoff];
      if polled == |statuses| {
        assert SettledAt(statuses).None?;
        settled := None;
        return;
      }
      state := statuses[polled];
      polled := polled + 1;
      if backoff < BackoffCap {
        backoff := backoff + BackoffStep;
      }
    }
    assert SettledAt(statuses) == Some(polled - 1);
    settled := Some(state);
  }

  /** The paging loop: ask for a page with the last token, append its rows,
      and go on while the page carries a token. `rows` is None when a page
      request failed. */
  method ReadAllPages(pages: seq<Page>) returns (rows: Option<seq<seq<Value>>>)
    ensures rows == (match LastPage(pages) case None => None case Some(m) => Some(ConcatRows(pages[..m + 1])))
  {
    var all: seq<seq<Value>> := [];
    var fetched := 0;
    var more := true;
    while more
      invariant 0 <= fetched <= |pages|
      invariant all == ConcatRows(pages[..fetched])
      invariant forall j :: 0 <= j < fetched - 1 ==> HasNext(pages[j])
      invariant fetched == 0 ==> more
      invariant fetched > 0 ==> (more <==> HasNext(pages[fetched - 1]))
      decreases |pages| - fetched, more
    {
      if fetched == |pages| {
        LastPageNone(pages);
        rows := None;
        return;
      }
      var page := pages[fetched];
      ConcatRowsStep(pages, fetched);
      all := all + PageRows(page);
      fetched := fetched + 1;
      more := HasNext(page);
    }
    LastPageAt(pages, fetched - 1);
    rows := Some(all);
  }

  method FetchAllResults(remote: Remote) returns (result: Result<seq<seq<Value>>, FetchError>, sleeps: seq<nat>)
    ensures result == FetchOutcome(remote)
    ensures sleeps == PollDelays(PollCount(remote.statuses))
  {
    var settled;
    settled, sleeps := PollUntilSettled(remote.statuses);
    if settled.None? {
      return Failure(ServiceError), sleeps;
    }
    if settled.value != Succeeded {
      return Failure(QueryFailed(settled.value)), sleeps;
    }
    var rows := ReadAllPages(remote.pages);
    if rows.None? {
      return Failure(ServiceError), sleeps;
    }
    result := Success(rows.value);
  }

  /** The query yields rows exactly when its first settled state is
      SUCCEEDED and the paging ends within the script; any other settled
      state is reported as the error. */
  lemma FetchFailsUnlessSucceeded(remote: Remote)
    ensures FetchOutcome(remote).Success? <==>
      SettledAt(remote.statuses).Some? && remote.statuses[SettledAt(remote.statuses).value] == Succeeded
      && LastPage(remote.pages).Some?
    ensures SettledAt(remote.statuses).Some? && remote.statuses[SettledAt(remote.statuses).value] != Succeeded
      ==> FetchOutcome(remote) == Failure(QueryFailed(remote.statuses[SettledAt(remote.statuses).value]))
  {
  }

  lemma {:induction false} ConcatRowsAppend(ps: seq<Page>, qs: seq<Page>)
    ensures ConcatRows(ps + qs) == ConcatRows(ps) + ConcatRows(qs)
    decreases |qs|
  {
    if qs == [] {
      assert ps + qs == ps;
    } else {
      var n := |qs| - 1;
      calc {
        ConcatRows(ps + qs);
      == { SplitLast(ps, qs);
           AppendAssoc(ps, qs[..n], [qs[n]]);
           ConcatRowsSnoc(ps + qs[..n], qs[n]); }
        ConcatRows(ps + qs[..n]) + PageRows(qs[n]);
      == { ConcatRowsAppend(ps, qs[..n]); }
        (ConcatRows(ps) + ConcatRows(qs[..n])) + PageRows(qs[n]);
      == { AppendAssoc(ConcatRows(ps), ConcatRows(qs[..n]), PageRows(qs[n])); }
        ConcatRows(ps) + (ConcatRows(qs[..n]) + PageRows(qs[n]));
      == { SplitLast([], qs);
           ConcatRowsSnoc(qs[..n], qs[n]); }
        ConcatRows(ps) + ConcatRows(qs);
      }
    }
  }

  lemma ConcatRowsSnoc(ps: seq<Page>, p: Page)
    ensures ConcatRows(ps + [p]) == ConcatRows(ps) + PageRows(p)
  {
    var q := ps + [p];
    assert q[..|q| - 1] == ps;
  }

  /** Reading one more page appends its rows. */
  lemma ConcatRowsStep(pages: seq<Page>, i: nat)
    requires i < |pages|
    ensures ConcatRows(pages[..i + 1]) == ConcatRows(pages[..i]) + PageRows(pages[i])
  {
    assert pages[..i + 1][..i] == pages[..i];
  }

  /** The rows come page after page: the first page's rows lead the result
      (its first row is the header) and every later page follows in order. */
  lemma {:induction false} FetchedRowsFollowPages(remote: Remote, m: nat)
    requires FetchOutcome(remote).Success? && LastPage(remote.pages) == Some(m)
    ensures FetchOutcome(remote).value == PageRows(remote.pages[0]) + ConcatRows(remote.pages[1..m + 1])
  {
    var ps := remote.pages[..m + 1];
    assert ps == [ps[0]] + ps[1..];
    ConcatRowsAppend([ps[0]], ps[1..]);
    assert ConcatRows([ps[0]]) == PageRows(ps[0]) by {
      assert [ps[0]][..0] == [];
    }
    assert ps[1..] == remote.pages[1..m + 1];
  }

  /** A page whose cells lack `VarCharValue` gives null cells, never
      missing ones: each row keeps its width. */
  lemma MissingCellsAreNull(p: Page, i: nat, j: nat)
    requires p.rows.Some? && i < |p.rows.value|
    requires p.rows.value[i].data.Some? && j < |p.rows.value[i].data.value|
    ensures |PageRows(p)| == |p.rows.value| && |PageRows(p)[i]| == |p.rows.value[i].data.value|
    ensures p.rows.value[i].data.value[j].varCharValue.None? ==> PageRows(p)[i][j] == Null
    ensures p.rows.value[i].data.value[j].varCharValue.Some? ==>
      PageRows(p)[i][j] == Str(p.rows.value[i].data.value[j].varCharValue.value)
  {
  }
}
