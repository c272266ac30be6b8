/** `simulate_click` and `report_phishing`: one UPDATE each on `results`, matched
    by tracking token or by the employees having a given e-mail in a given
    campaign. A statement that matches no row is not an error; it is reported as
    "not found" and leaves the store as it was.
 */
module Events {
  import opened Outcomes
  import opened Store

  /** `rowcount == 0` is reported as not found; any other count as recorded. */
  datatype EventOutcome = Recorded | NotFound

  datatype EventResult = EventResult(store: Store, outcome: EventOutcome)

  // simulate_click

  /** The row a click on it turns into. */
  function Clicked(r: ResultRecord, now: string): ResultRecord {
    r.(linkClicked := true, clickedAt := Some(now))
  }

  /** `UPDATE results SET link_clicked = 1, clicked_at = ? WHERE token = ?`. */
  function ClickRows(rs: seq<ResultRecord>, token: string, now: string): (out: seq<ResultRecord>)
    ensures |out| == |rs|
    ensures forall i :: 0 <= i < |rs| ==> out[i] == if rs[i].token == token then Clicked(rs[i], now) else rs[i]
    ensures !TokenUsed(rs, token) ==> out == rs
  {
    if |rs| == 0 then []
    else
      var rest := ClickRows(rs[1..], token, now);
      assert rs == [rs[0]] + rs[1..];
      [if rs[0].token == token then Clicked(rs[0], now) else rs[0]] + rest
  }

  /** Records a click on tracking token `token` at time `now`. */
  function SimulateClick(s: Store, token: string, now: string): (r: EventResult)
    ensures r.store.campaigns == s.campaigns && r.store.employees == s.employees
    ensures r.outcome == NotFound <==> !TokenUsed(s.results, token)
    ensures r.outcome == NotFound ==> r.store == s
  {
    var rows := ClickRows(s.results, token, now);
    EventResult(Store(s.campaigns, s.employees, rows), if TokenUsed(s.results, token) then Recorded else NotFound)
  }

  /** A click changes only rows carrying the token, and on each of those sets the
      clicked flag and the click time and nothing else. */
  lemma SimulateClickFrame(s: Store, token: string, now: string, i: nat)
    requires i < |s.results|
    ensures var r := SimulateClick(s, token, now).store;
      && |r.results| == |s.results|
      && (s.results[i].token != token ==> r.results[i] == s.results[i])
      && (s.results[i].token == token ==>
            && r.results[i].linkClicked
            && r.results[i].clickedAt == Some(now)
            && r.results[i].(linkClicked := s.results[i].linkClicked, clickedAt := s.results[i].clickedAt) == s.results[i])
  {
  }

  /** In a valid store a recorded click changes exactly one row: tokens are unique. */
  lemma SimulateClickChangesOneRow(s: Store, token: string, now: string, i: nat, j: nat)
    requires Valid(s)
    requires i < |s.results| && j < |s.results|
    requires SimulateClick(s, token, now).store.results[i] != s.results[i]
    requires SimulateClick(s, token, now).store.results[j] != s.results[j]
    ensures i == j
  {
  }

  /** A second click at `now2` overwrites the first click's time and nothing else. */
  lemma {:induction false} ClickRowsTwice(rs: seq<ResultRecord>, token: string, now1: string, now2: string)
    ensures ClickRows(ClickRows(rs, token, now1), token, now2) == ClickRows(rs, token, now2)
  {
    if |rs| > 0 {
      ClickRowsTwice(rs[1..], token, now1, now2);
      var once := ClickRows(rs, token, now1);
      assert once[1..] == ClickRows(rs[1..], token, now1);
    }
  }

  /** A click keeps every token, so the token stays findable. */
  lemma ClickRowsKeepsTokens(rs: seq<ResultRecord>, token: string, now: string)
    ensures TokenUsed(ClickRows(rs, token, now), token) <==> TokenUsed(rs, token)
  {
    SameKeysTokens(rs, ClickRows(rs, token, now), token);
  }

  /** Clicking twice is the same as clicking once at the later time: the flags
      are idempotent and only the click time is refreshed. */
  lemma SimulateClickIdempotent(s: Store, token: string, now1: string, now2: string)
    ensures var once := SimulateClick(s, token, now1);
      var twice := SimulateClick(once.store, token, now2);
      && twice == SimulateClick(s, token, now2)
      && twice.outcome == once.outcome
  {
    ClickRowsTwice(s.results, token, now1, now2);
    ClickRowsKeepsTokens(s.results, token, now1);
  }

  /** A click changes no key, so the store stays valid. */
  lemma SimulateClickPreservesValid(s: Store, token: string, now: string)
    requires Valid(s)
    ensures Valid(SimulateClick(s, token, now).store)
  {
    var r := SimulateClick(s, token, now).store;
    SameKeysValid(s, r.results);
  }

  // report_phishing

  /** The ids of the employees with e-mail `email` in campaign `cid`. */
  function ReporterIds(es: seq<Employee>, email: string, cid: string): (ids: set<string>)
    ensures forall id :: id in ids <==> exists e :: e in es && e.email == email && e.campaignId == cid && e.id == id
  {
    set e | e in es && e.email == email && e.campaignId == cid :: e.id
  }

  function Reported(r: ResultRecord, now: string): ResultRecord {
    r.(phishingReported := true, reportedAt := Some(now))
  }

  /** `UPDATE results SET phishing_reported = 1, reported_at = ? WHERE employee_id IN (...)`. */
  function ReportRows(rs: seq<ResultRecord>, ids: set<string>, now: string): (out: seq<ResultRecord>)
    ensures |out| == |rs|
    ensures forall i :: 0 <= i < |rs| ==> out[i] == if rs[i].employeeId in ids then Reported(rs[i], now) else rs[i]
    ensures (forall x :: x in rs ==> x.employeeId !in ids) ==> out == rs
  {
    if |rs| == 0 then []
    else
      var rest := ReportRows(rs[1..], ids, now);
      assert rs == [rs[0]] + rs[1..];
      [if rs[0].employeeId in ids then Reported(rs[0], now) else rs[0]] + rest
  }

  /** Some result row points at one of these employee ids. */
  predicate AnyReferenced(rs: seq<ResultRecord>, ids: set<string>) {
    exists x :: x in rs && x.employeeId in ids
  }

  /** Records that the employee with e-mail `email` in campaign `cid` reported the
      phishing e-mail at time `now`. */
  function ReportPhishing(s: Store, email: string, cid: string, now: string): (r: EventResult)
    ensures r.store.campaigns == s.campaigns && r.store.employees == s.employees
    ensures r.outcome == NotFound <==> !AnyReferenced(s.results, ReporterIds(s.employees, email, cid))
    ensures r.outcome == NotFound ==> r.store == s
    ensures !EmailUsed(s.employees, email) ==> r.outcome == NotFound
  {
    var ids := ReporterIds(s.employees, email, cid);
    var rows := ReportRows(s.results, ids, now);
    EventResult(Store(s.campaigns, s.employees, rows), if AnyReferenced(s.results, ids) then Recorded else NotFound)
  }

  /** A report changes only the rows that point at an employee with that e-mail in
      that campaign, and on those only the reported flag and time. Orphan results
      are never touched, so they can never be reported. */
  lemma ReportPhishingFrame(s: Store, email: string, cid: string, now: string, i: nat)
    requires i < |s.results|
    ensures var r := ReportPhishing(s, email, cid, now).store;
      var x := s.results[i];
      var matched := exists e :: e in s.employees && e.id == x.employeeId && e.email == email && e.campaignId == cid;
      && |r.results| == |s.results|
      && (!matched ==> r.results[i] == x)
      && (matched ==> r.results[i] == x.(phishingReported := true, reportedAt := Some(now)))
      && (IsOrphan(s, x) ==> r.results[i] == x)
  {
  }

  /** In a valid store a report never touches a result of another campaign. */
  lemma ReportPhishingStaysInCampaign(s: Store, email: string, cid: string, now: string, i: nat)
    requires Valid(s)
    requires i < |s.results|
    requires s.results[i].campaignId != cid
    ensures ReportPhishing(s, email, cid, now).store.results[i] == s.results[i]
  {
  }

  /** A second report at `now2` overwrites the first report's time and nothing else. */
  lemma {:induction false} ReportRowsTwice(rs: seq<ResultRecord>, ids: set<string>, now1: string, now2: string)
    ensures ReportRows(ReportRows(rs, ids, now1), ids, now2) == ReportRows(rs, ids, now2)
  {
    if |rs| > 0 {
      ReportRowsTwice(rs[1..], ids, now1, now2);
      var once := ReportRows(rs, ids, now1);
      assert once[1..] == ReportRows(rs[1..], ids, now1);
    }
  }

  /** A report keeps every employee id, so the same rows stay matched. */
  lemma ReportRowsKeepsReferences(rs: seq<ResultRecord>, ids: set<string>, now: string)
    ensures AnyReferenced(ReportRows(rs, ids, now), ids) <==> AnyReferenced(rs, ids)
  {
    SameKeysReferenced(rs, ReportRows(rs, ids, now), ids);
  }

  /** Tables with the same keys reference the same employees. */
  lemma SameKeysReferenced(a: seq<ResultRecord>, b: seq<ResultRecord>, ids: set<string>)
    requires SameKeys(a, b)
    ensures AnyReferenced(a, ids) <==> AnyReferenced(b, ids)
  {
    if AnyReferenced(a, ids) {
      var x :| x in a && x.employeeId in ids;
      var k :| 0 <= k < |a| && a[k] == x;
      assert b[k] in b;
    }
    if AnyReferenced(b, ids) {
      var x :| x in b && x.employeeId in ids;
      var k :| 0 <= k < |b| && b[k] == x;
      assert a[k] in a;
    }
  }

  /** Reporting twice is the same as reporting once at the later time. */
  lemma ReportPhishingIdempotent(s: Store, email: string, cid: string, now1: string, now2: string)
    ensures var once := ReportPhishing(s, email, cid, now1);
      var twice := ReportPhishing(once.store, email, cid, now2);
      && twice == ReportPhishing(s, email, cid, now2)
      && twice.outcome == once.outcome
  {
    ReportRowsTwice(s.results, ReporterIds(s.employees, email, cid), now1, now2);
    ReportRowsKeepsReferences(s.results, ReporterIds(s.employees, email, cid), now1);
  }

  /** A report changes no key, so the store stays valid. */
  lemma ReportPhishingPreservesValid(s: Store, email: string, cid: string, now: string)
    requires Valid(s)
    ensures Valid(ReportPhishing(s, email, cid, now).store)
  {
    var r := ReportPhishing(s, email, cid, now).store;
    SameKeysValid(s, r.results);
  }
}
