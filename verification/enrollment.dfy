/** `add_employees`: validate the parsed records, then, inside one transaction,
    insert-or-ignore an employee row and unconditionally insert a result row for
    every record.

    The employee id is drawn afresh for every record and the result row always
    points at it. When the e-mail is already in the table the employee insert is
    ignored, so that result row points at an id no employee carries: an orphan.
 */
module Enrollment {
  import opened Outcomes
  import opened Store

  /** One parsed CSV row: column name to cell text. Extra columns are ignored. */
  type Record = map<string, string>

  predicate HasRequiredFields(rec: Record) {
    "email" in rec && "name" in rec && "department" in rec
  }

  predicate AllHaveRequiredFields(recs: seq<Record>) {
    forall i :: 0 <= i < |recs| ==> HasRequiredFields(recs[i])
  }

  /** The three uuid4 values drawn for one record, in the order they are drawn. */
  datatype Draw = Draw(employeeId: string, token: string, resultId: string)

  /** The employee row a record asks to insert. */
  function Enrollee(cid: string, rec: Record, d: Draw): Employee
    requires HasRequiredFields(rec)
  {
    Employee(d.employeeId, rec["email"], rec["name"], rec["department"], cid)
  }

  /** The result row a record inserts: every flag 0, both timestamps NULL. */
  function NewResult(cid: string, d: Draw): ResultRecord {
    ResultRecord(d.resultId, d.employeeId, cid, false, false, false, None, None, d.token)
  }

  function NewResults(cid: string, draws: seq<Draw>): seq<ResultRecord> {
    if |draws| == 0 then [] else [NewResult(cid, draws[0])] + NewResults(cid, draws[1..])
  }

  /** One iteration of the insert loop. `INSERT OR IGNORE` skips the employee when
      its id or its e-mail clashes; the result insert fails on a clashing id or token. */
  function EnrollOne(s: Store, cid: string, rec: Record, d: Draw): Outcome<Store>
    requires HasRequiredFields(rec)
  {
    var employees :=
      if EmployeeIdUsed(s.employees, d.employeeId) || EmailUsed(s.employees, rec["email"]) then s.employees
      else s.employees + [Enrollee(cid, rec, d)];
    if ResultIdUsed(s.results, d.resultId) || TokenUsed(s.results, d.token) then Err(DuplicateKey("results"))
    else Ok(Store(s.campaigns, employees, s.results + [NewResult(cid, d)]))
  }

  /** A table whose first rows are `a` then `x`: its first rows are `a`, and past
      `a` it starts with `x` and continues with what follows `x`. */
  lemma ExtendPrefix(a: seq<ResultRecord>, x: ResultRecord, c: seq<ResultRecord>)
    requires |c| >= |a| + 1 && c[..|a| + 1] == a + [x]
    ensures c[..|a|] == a
    ensures c[|a|..][0] == x
    ensures forall i :: 1 <= i < |c| - |a| ==> c[|a|..][i] == c[|a| + 1..][i - 1]
  {
    assert c[..|a|] == c[..|a| + 1][..|a|];
  }

  /** The insert loop; the first failing statement abandons the whole batch. */
  function InsertAll(s: Store, cid: string, recs: seq<Record>, draws: seq<Draw>): (r: Outcome<Store>)
    requires |draws| == |recs|
    requires AllHaveRequiredFields(recs)
    ensures r.Err? ==> r.error == DuplicateKey("results")
    ensures r.Ok? ==>
      && r.value.campaigns == s.campaigns
      && s.employees <= r.value.employees
      && |r.value.results| == |s.results| + |recs|
      && r.value.results[..|s.results|] == s.results
      && (forall i :: 0 <= i < |recs| ==> r.value.results[|s.results|..][i] == NewResult(cid, draws[i]))
    decreases |recs|
  {
    if |recs| == 0 then Ok(s)
    else
      match EnrollOne(s, cid, recs[0], draws[0])
      case Err(e) => Err(e)
      case Ok(s1) =>
        assert AllHaveRequiredFields(recs[1..]) by {
          forall i | 0 <= i < |recs[1..]| ensures HasRequiredFields(recs[1..][i]) {
            assert recs[1..][i] == recs[i + 1];
          }
        }
        var r := InsertAll(s1, cid, recs[1..], draws[1..]);
        if r.Ok? then
          assert forall i :: 1 <= i < |recs| ==> draws[i] == draws[1..][i - 1];
          ExtendPrefix(s.results, NewResult(cid, draws[0]), r.value.results);
          r
        else r
  }

  /** `add_employees` on an already-parsed record list. An empty list or a record
      missing `email`, `name` or `department` fails before anything is written;
      otherwise the batch commits only if every insert succeeds. The campaign id is
      not checked: the declared foreign keys are never enforced. */
  function AddEmployees(s: Store, cid: string, records: seq<Record>, draws: seq<Draw>): (r: Outcome<Store>)
    requires |draws| == |records|
    ensures |records| == 0 ==> r == Err(NoData)
    ensures !AllHaveRequiredFields(records) ==> r == Err(MissingFields)
    ensures r.Err? ==> r.error == NoData || r.error == MissingFields || r.error == DuplicateKey("results")
    ensures r.Ok? ==>
      && |records| > 0
      && r.value.campaigns == s.campaigns
      && s.employees <= r.value.employees
      && |r.value.results| == |s.results| + |records|
      && r.value.results[..|s.results|] == s.results
      && (forall i :: 0 <= i < |records| ==>
            && r.value.results[|s.results|..][i].campaignId == cid
            && r.value.results[|s.results|..][i].token == draws[i].token
            && !r.value.results[|s.results|..][i].emailSent
            && !r.value.results[|s.results|..][i].linkClicked
            && !r.value.results[|s.results|..][i].phishingReported)
  {
    if |records| == 0 then Err(NoData)
    else if !AllHaveRequiredFields(records) then Err(MissingFields)
    else
      InsertAll(s, cid, records, draws)
  }

  // Fresh identifiers

  /** The uuid4 values of a batch are pairwise distinct and appear nowhere in the
      store, not even as the `employee_id` of an orphan result. */
  predicate FreshDraws(s: Store, draws: seq<Draw>) {
    && (forall i, j :: 0 <= i < j < |draws| ==> draws[i].employeeId != draws[j].employeeId)
    && (forall i, j :: 0 <= i < j < |draws| ==> draws[i].resultId != draws[j].resultId)
    && (forall i, j :: 0 <= i < j < |draws| ==> draws[i].token != draws[j].token)
    && (forall i :: 0 <= i < |draws| ==>
          && !EmployeeIdUsed(s.employees, draws[i].employeeId)
          && !EmployeeIdReferenced(s.results, draws[i].employeeId)
          && !ResultIdUsed(s.results, draws[i].resultId)
          && !TokenUsed(s.results, draws[i].token))
  }

  /** The employee rows a batch actually inserts when every id is fresh: one per
      record whose e-mail is not yet in the table (including earlier records of
      the same batch). */
  function Accepted(prior: seq<Employee>, cid: string, recs: seq<Record>, draws: seq<Draw>): seq<Employee>
    requires |draws| == |recs|
    requires AllHaveRequiredFields(recs)
    decreases |recs|
  {
    if |recs| == 0 then []
    else
      var e := Enrollee(cid, recs[0], draws[0]);
      if EmailUsed(prior, e.email) then Accepted(prior, cid, recs[1..], draws[1..])
      else [e] + Accepted(prior + [e], cid, recs[1..], draws[1..])
  }

  /** One iteration with fresh ids: the result insert succeeds and the employee
      insert is skipped exactly when the e-mail is already present. */
  lemma EnrollOneFresh(s: Store, cid: string, rec: Record, d: Draw)
    requires HasRequiredFields(rec)
    requires !EmployeeIdUsed(s.employees, d.employeeId)
    requires !ResultIdUsed(s.results, d.resultId) && !TokenUsed(s.results, d.token)
    ensures EnrollOne(s, cid, rec, d) == Ok(Store(
      s.campaigns,
      if EmailUsed(s.employees, rec["email"]) then s.employees else s.employees + [Enrollee(cid, rec, d)],
      s.results + [NewResult(cid, d)]))
  {
  }

  /** After one iteration the remaining draws are still fresh. */
  lemma FreshDrawsTail(s: Store, s1: Store, cid: string, draws: seq<Draw>)
    requires |draws| > 0
    requires FreshDraws(s, draws)
    requires forall x :: x in s1.employees ==> x in s.employees || x.id == draws[0].employeeId
    requires forall x :: x in s1.results ==> x in s.results || x == NewResult(cid, draws[0])
    ensures FreshDraws(s1, draws[1..])
  {
    var dtail := draws[1..];
    forall i | 0 <= i < |dtail|
      ensures !EmployeeIdUsed(s1.employees, dtail[i].employeeId)
      ensures !EmployeeIdReferenced(s1.results, dtail[i].employeeId)
      ensures !ResultIdUsed(s1.results, dtail[i].resultId)
      ensures !TokenUsed(s1.results, dtail[i].token)
    {
      assert dtail[i] == draws[i + 1];
    }
    forall i, j | 0 <= i < j < |dtail|
      ensures dtail[i].employeeId != dtail[j].employeeId
      ensures dtail[i].resultId != dtail[j].resultId
      ensures dtail[i].token != dtail[j].token
    {
      assert dtail[i] == draws[i + 1] && dtail[j] == draws[j + 1];
    }
  }

  /** Unfolding one iteration of the insert loop when it succeeds. */
  lemma InsertAllStep(s: Store, s1: Store, cid: string, recs: seq<Record>, draws: seq<Draw>)
    requires |draws| == |recs| > 0
    requires AllHaveRequiredFields(recs)
    requires EnrollOne(s, cid, recs[0], draws[0]) == Ok(s1)
    ensures AllHaveRequiredFields(recs[1..])
    ensures InsertAll(s, cid, recs, draws) == InsertAll(s1, cid, recs[1..], draws[1..])
  {
    assert AllHaveRequiredFields(recs[1..]) by {
      forall i | 0 <= i < |recs[1..]| ensures HasRequiredFields(recs[1..][i]) {
        assert recs[1..][i] == recs[i + 1];
      }
    }
  }

  /** Unfolding one step of `Accepted`, with the table the next step sees. */
  lemma AcceptedStep(prior: seq<Employee>, cid: string, recs: seq<Record>, draws: seq<Draw>)
    requires |draws| == |recs| > 0
    requires AllHaveRequiredFields(recs)
    requires AllHaveRequiredFields(recs[1..])
    ensures var e := Enrollee(cid, recs[0], draws[0]);
      var next := if EmailUsed(prior, e.email) then prior else prior + [e];
      next + Accepted(next, cid, recs[1..], draws[1..]) == prior + Accepted(prior, cid, recs, draws)
  {
    var e := Enrollee(cid, recs[0], draws[0]);
    if !EmailUsed(prior, e.email) {
      var rest := Accepted(prior + [e], cid, recs[1..], draws[1..]);
      assert (prior + [e]) + rest == prior + ([e] + rest);
    }
  }

  lemma NewResultsCons(prefix: seq<ResultRecord>, cid: string, draws: seq<Draw>)
    requires |draws| > 0
    ensures (prefix + [NewResult(cid, draws[0])]) + NewResults(cid, draws[1..]) == prefix + NewResults(cid, draws)
  {
  }

  /** One iteration with fresh ids, and what the loop continues with. */
  lemma FreshStep(s: Store, cid: string, recs: seq<Record>, draws: seq<Draw>) returns (s1: Store)
    requires |draws| == |recs| > 0
    requires AllHaveRequiredFields(recs)
    requires FreshDraws(s, draws)
    ensures AllHaveRequiredFields(recs[1..])
    ensures FreshDraws(s1, draws[1..])
    ensures InsertAll(s, cid, recs, draws) == InsertAll(s1, cid, recs[1..], draws[1..])
    ensures Store(s1.campaigns, s1.employees + Accepted(s1.employees, cid, recs[1..], draws[1..]),
                  s1.results + NewResults(cid, draws[1..]))
         == Store(s.campaigns, s.employees + Accepted(s.employees, cid, recs, draws), s.results + NewResults(cid, draws))
  {
    var d := draws[0];
    var e := Enrollee(cid, recs[0], d);
    var employees1 := if EmailUsed(s.employees, e.email) then s.employees else s.employees + [e];
    s1 := Store(s.campaigns, employees1, s.results + [NewResult(cid, d)]);
    EnrollOneFresh(s, cid, recs[0], d);
    InsertAllStep(s, s1, cid, recs, draws);
    FreshDrawsTail(s, s1, cid, draws);
    AcceptedStep(s.employees, cid, recs, draws);
    NewResultsCons(s.results, cid, draws);
  }

  /** With fresh ids the insert loop commits, appending exactly the accepted
      employees and one new result per record. */
  lemma {:induction false} InsertAllFresh(s: Store, cid: string, recs: seq<Record>, draws: seq<Draw>)
    requires |draws| == |recs|
    requires AllHaveRequiredFields(recs)
    requires FreshDraws(s, draws)
    ensures InsertAll(s, cid, recs, draws) ==
      Ok(Store(s.campaigns, s.employees + Accepted(s.employees, cid, recs, draws), s.results + NewResults(cid, draws)))
    decreases |recs|
  {
    if |recs| == 0 {
      assert s.employees + [] == s.employees && s.results + [] == s.results;
    } else {
      var s1 := FreshStep(s, cid, recs, draws);
      InsertAllFresh(s1, cid, recs[1..], draws[1..]);
    }
  }

  /** The e-mail of record `i` was already taken when record `i` was inserted:
      by a row of the store or by an earlier record of the same batch. */
  predicate SeenBefore(prior: seq<Employee>, recs: seq<Record>, i: nat)
    requires i < |recs|
    requires AllHaveRequiredFields(recs)
  {
    || EmailUsed(prior, recs[i]["email"])
    || exists j :: 0 <= j < i && recs[j]["email"] == recs[i]["email"]
  }

  predicate DistinctEmployeeIds(draws: seq<Draw>) {
    forall i, j :: 0 <= i < j < |draws| ==> draws[i].employeeId != draws[j].employeeId
  }

  /** Every accepted row belongs to the campaign, carries an e-mail the prior
      table did not have, and is the employee row of one of the records. */
  lemma {:induction false} AcceptedOrigin(prior: seq<Employee>, cid: string, recs: seq<Record>, draws: seq<Draw>)
    requires |draws| == |recs|
    requires AllHaveRequiredFields(recs)
    ensures var acc := Accepted(prior, cid, recs, draws);
      && (forall e :: e in acc ==> e.campaignId == cid && !EmailUsed(prior, e.email))
      && (forall e :: e in acc ==> exists i :: 0 <= i < |recs| && e == Enrollee(cid, recs[i], draws[i]))
    decreases |recs|
  {
    if |recs| > 0 {
      var e := Enrollee(cid, recs[0], draws[0]);
      var tail, dtail := recs[1..], draws[1..];
      assert AllHaveRequiredFields(tail) by {
        forall i | 0 <= i < |tail| ensures HasRequiredFields(tail[i]) {
          assert tail[i] == recs[i + 1];
        }
      }
      var next := if EmailUsed(prior, e.email) then prior else prior + [e];
      AcceptedOrigin(next, cid, tail, dtail);
      forall x | x in Accepted(next, cid, tail, dtail)
        ensures !EmailUsed(prior, x.email)
        ensures exists i :: 0 <= i < |recs| && x == Enrollee(cid, recs[i], draws[i])
      {
        var i :| 0 <= i < |tail| && x == Enrollee(cid, tail[i], dtail[i]);
        assert tail[i] == recs[i + 1] && dtail[i] == draws[i + 1];
      }
    }
  }

  /** The accepted rows have pairwise distinct ids and e-mails. */
  lemma {:induction false} AcceptedKeysDistinct(prior: seq<Employee>, cid: string, recs: seq<Record>, draws: seq<Draw>)
    requires |draws| == |recs|
    requires AllHaveRequiredFields(recs)
    requires DistinctEmployeeIds(draws)
    ensures var acc := Accepted(prior, cid, recs, draws);
      forall k1, k2 :: 0 <= k1 < k2 < |acc| ==> acc[k1].id != acc[k2].id && acc[k1].email != acc[k2].email
    decreases |recs|
  {
    if |recs| > 0 {
      var e := Enrollee(cid, recs[0], draws[0]);
      var tail, dtail := recs[1..], draws[1..];
      TailWellFormed(recs, draws);
      var next := if EmailUsed(prior, e.email) then prior else prior + [e];
      var rest := Accepted(next, cid, tail, dtail);
      AcceptedKeysDistinct(next, cid, tail, dtail);
      if !EmailUsed(prior, e.email) {
        AcceptedOrigin(next, cid, tail, dtail);
        forall x | x in rest ensures x.id != e.id && x.email != e.email {
          var i :| 0 <= i < |tail| && x == Enrollee(cid, tail[i], dtail[i]);
          assert draws[0].employeeId != draws[i + 1].employeeId;
          assert e in prior + [e];
        }
        var acc := Accepted(prior, cid, recs, draws);
        assert acc == [e] + rest;
        forall k1, k2 | 0 <= k1 < k2 < |acc| ensures acc[k1].id != acc[k2].id && acc[k1].email != acc[k2].email {
          assert acc[k2] == rest[k2 - 1] && rest[k2 - 1] in rest;
          if k1 > 0 {
            assert acc[k1] == rest[k1 - 1];
          }
        }
      }
    }
  }

  /** After the batch every record's e-mail is in the table. */
  lemma {:induction false} AcceptedCoversEmails(prior: seq<Employee>, cid: string, recs: seq<Record>, draws: seq<Draw>)
    requires |draws| == |recs|
    requires AllHaveRequiredFields(recs)
    ensures forall i :: 0 <= i < |recs| ==> EmailUsed(prior + Accepted(prior, cid, recs, draws), recs[i]["email"])
    decreases |recs|
  {
    if |recs| > 0 {
      var e := Enrollee(cid, recs[0], draws[0]);
      var tail, dtail := recs[1..], draws[1..];
      assert AllHaveRequiredFields(tail) by {
        forall i | 0 <= i < |tail| ensures HasRequiredFields(tail[i]) {
          assert tail[i] == recs[i + 1];
        }
      }
      var next := if EmailUsed(prior, e.email) then prior else prior + [e];
      AcceptedCoversEmails(next, cid, tail, dtail);
      AcceptedStep(prior, cid, recs, draws);
      var all := prior + Accepted(prior, cid, recs, draws);
      forall i | 0 <= i < |recs| ensures EmailUsed(all, recs[i]["email"]) {
        if i == 0 {
          if !EmailUsed(prior, e.email) {
            assert e in next;
          } else {
            var y :| y in prior && y.email == e.email;
          }
        } else {
          assert recs[i] == tail[i - 1];
        }
      }
    }
  }

  /** What the accepted employees are: rows of the batch's campaign, each built
      from one record, with e-mails new to the table and to each other. */
  lemma AcceptedShape(prior: seq<Employee>, cid: string, recs: seq<Record>, draws: seq<Draw>)
    requires |draws| == |recs|
    requires AllHaveRequiredFields(recs)
    requires DistinctEmployeeIds(draws)
    ensures var acc := Accepted(prior, cid, recs, draws);
      && (forall e :: e in acc ==> e.campaignId == cid && !EmailUsed(prior, e.email))
      && (forall e :: e in acc ==> exists i :: 0 <= i < |recs| && e == Enrollee(cid, recs[i], draws[i]))
      && (forall k1, k2 :: 0 <= k1 < k2 < |acc| ==> acc[k1].id != acc[k2].id && acc[k1].email != acc[k2].email)
      && (forall i :: 0 <= i < |recs| ==> EmailUsed(prior + acc, recs[i]["email"]))
  {
    AcceptedOrigin(prior, cid, recs, draws);
    AcceptedKeysDistinct(prior, cid, recs, draws);
    AcceptedCoversEmails(prior, cid, recs, draws);
  }

  lemma TailWellFormed(recs: seq<Record>, draws: seq<Draw>)
    requires |draws| == |recs| > 0
    requires AllHaveRequiredFields(recs)
    requires DistinctEmployeeIds(draws)
    ensures AllHaveRequiredFields(recs[1..])
    ensures DistinctEmployeeIds(draws[1..])
    ensures forall k :: 0 <= k < |recs[1..]| ==> recs[1..][k] == recs[k + 1] && draws[1..][k] == draws[k + 1]
  {
  }

  /** Whether record `i` was seen before, as judged by the next step of the loop. */
  lemma SeenBeforeStep(prior: seq<Employee>, cid: string, recs: seq<Record>, draws: seq<Draw>, i: nat)
    requires |draws| == |recs|
    requires AllHaveRequiredFields(recs)
    requires 0 < i < |recs|
    requires AllHaveRequiredFields(recs[1..])
    ensures var e := Enrollee(cid, recs[0], draws[0]);
      var next := if EmailUsed(prior, e.email) then prior else prior + [e];
      SeenBefore(next, recs[1..], i - 1) <==> SeenBefore(prior, recs, i)
  {
    var e := Enrollee(cid, recs[0], draws[0]);
    var next := if EmailUsed(prior, e.email) then prior else prior + [e];
    var tail := recs[1..];
    var m := recs[i]["email"];
    assert tail[i - 1] == recs[i];
    if SeenBefore(prior, recs, i) && !EmailUsed(prior, m) {
      var j :| 0 <= j < i && recs[j]["email"] == m;
      if j == 0 {
        assert e in next;
      } else {
        assert tail[j - 1] == recs[j];
      }
    }
    if SeenBefore(next, tail, i - 1) && !EmailUsed(next, m) {
      var j :| 0 <= j < i - 1 && tail[j]["email"] == m;
      assert tail[j] == recs[j + 1];
    }
    if EmailUsed(next, m) && !EmailUsed(prior, m) {
      var y :| y in next && y.email == m;
      assert y == e;
    }
    if EmailUsed(prior, m) {
      var y :| y in prior && y.email == m;
      assert y in next;
    }
  }

  /** Record `i` inserts its employee row exactly when its e-mail was not seen before. */
  lemma {:induction false} AcceptedMembership(prior: seq<Employee>, cid: string, recs: seq<Record>, draws: seq<Draw>, i: nat)
    requires |draws| == |recs|
    requires AllHaveRequiredFields(recs)
    requires DistinctEmployeeIds(draws)
    requires i < |recs|
    ensures Enrollee(cid, recs[i], draws[i]) in Accepted(prior, cid, recs, draws) <==> !SeenBefore(prior, recs, i)
    decreases |recs|
  {
    var e := Enrollee(cid, recs[0], draws[0]);
    var tail, dtail := recs[1..], draws[1..];
    TailWellFormed(recs, draws);
    var next := if EmailUsed(prior, e.email) then prior else prior + [e];
    var rest := Accepted(next, cid, tail, dtail);
    AcceptedOrigin(next, cid, tail, dtail);
    assert e !in rest by {
      assert EmailUsed(next, e.email) by {
        if !EmailUsed(prior, e.email) {
          assert e in next;
        }
      }
    }
    if i > 0 {
      assert Enrollee(cid, recs[i], draws[i]) != e by {
        assert draws[0].employeeId != draws[i].employeeId;
      }
      AcceptedMembership(next, cid, tail, dtail, i - 1);
      SeenBeforeStep(prior, cid, recs, draws, i);
    }
  }

  // What add_employees promises when every drawn id is fresh

  /** The batch commits; every record's e-mail is in the table afterwards; the
      rows it adds are employees of this campaign whose e-mails were new. */
  lemma AddEmployeesCommits(s: Store, cid: string, records: seq<Record>, draws: seq<Draw>)
    requires |draws| == |records| > 0
    requires AllHaveRequiredFields(records)
    requires FreshDraws(s, draws)
    ensures var r := AddEmployees(s, cid, records, draws);
      && r.Ok?
      && (forall i :: 0 <= i < |records| ==> EmailUsed(r.value.employees, records[i]["email"]))
      && (forall e :: e in r.value.employees[|s.employees|..] ==> e.campaignId == cid && !EmailUsed(s.employees, e.email))
  {
    InsertAllFresh(s, cid, records, draws);
    AcceptedShape(s.employees, cid, records, draws);
    var acc := Accepted(s.employees, cid, records, draws);
    assert (s.employees + acc)[|s.employees|..] == acc;
  }

  /** With fresh ids, the new result of record `i` points at an employee row
      exactly when record `i`'s e-mail was not seen before. */
  lemma OrphanAt(s: Store, cid: string, records: seq<Record>, draws: seq<Draw>, i: nat)
    requires |draws| == |records|
    requires AllHaveRequiredFields(records)
    requires FreshDraws(s, draws)
    requires i < |records|
    ensures EmployeeIdUsed(s.employees + Accepted(s.employees, cid, records, draws), draws[i].employeeId)
      <==> !SeenBefore(s.employees, records, i)
  {
    var acc := Accepted(s.employees, cid, records, draws);
    var id := draws[i].employeeId;
    AcceptedOrigin(s.employees, cid, records, draws);
    AcceptedMembership(s.employees, cid, records, draws, i);
    if EmployeeIdUsed(s.employees + acc, id) {
      var x :| x in s.employees + acc && x.id == id;
      assert x in acc;
      var j :| 0 <= j < |records| && x == Enrollee(cid, records[j], draws[j]);
      assert j == i;
    }
    if !SeenBefore(s.employees, records, i) {
      assert Enrollee(cid, records[i], draws[i]) in s.employees + acc;
    }
  }

  /** Result row `i` of the batch is an orphan exactly when the e-mail of record `i`
      was already taken, by the table or by an earlier record of the batch. */
  lemma AddEmployeesOrphans(s: Store, cid: string, records: seq<Record>, draws: seq<Draw>)
    requires |draws| == |records| > 0
    requires AllHaveRequiredFields(records)
    requires FreshDraws(s, draws)
    ensures var r := AddEmployees(s, cid, records, draws);
      && r.Ok?
      && (forall i :: 0 <= i < |records| ==>
            (IsOrphan(r.value, r.value.results[|s.results|..][i]) <==> SeenBefore(s.employees, records, i)))
  {
    InsertAllFresh(s, cid, records, draws);
    var r := AddEmployees(s, cid, records, draws);
    forall i | 0 <= i < |records|
      ensures IsOrphan(r.value, r.value.results[|s.results|..][i]) <==> SeenBefore(s.employees, records, i)
    {
      assert r.value.results[|s.results|..][i].employeeId == draws[i].employeeId;
      OrphanAt(s, cid, records, draws, i);
    }
  }

  /** Consequence for re-enrolment: a record whose e-mail already belongs to an
      employee leaves that employee row as it was and gets an orphan result. */
  lemma ReEnrolledEmailGetsOrphan(s: Store, cid: string, records: seq<Record>, draws: seq<Draw>, i: nat)
    requires |draws| == |records| > 0
    requires AllHaveRequiredFields(records)
    requires FreshDraws(s, draws)
    requires i < |records| && EmailUsed(s.employees, records[i]["email"])
    ensures var r := AddEmployees(s, cid, records, draws);
      && r.Ok?
      && r.value.employees[..|s.employees|] == s.employees
      && IsOrphan(r.value, r.value.results[|s.results|..][i])
      && r.value.results[|s.results|..][i].campaignId == cid
  {
    AddEmployeesOrphans(s, cid, records, draws);
  }

  lemma {:induction false} NewResultsShape(cid: string, draws: seq<Draw>)
    ensures |NewResults(cid, draws)| == |draws|
    ensures forall k :: 0 <= k < |draws| ==> NewResults(cid, draws)[k] == NewResult(cid, draws[k])
  {
    if |draws| > 0 {
      NewResultsShape(cid, draws[1..]);
      assert forall k :: 1 <= k < |draws| ==> draws[1..][k - 1] == draws[k];
    }
  }

  /** Accepted employees clash with no existing row, neither on id nor on e-mail. */
  lemma AcceptedAgainstPrior(s: Store, cid: string, records: seq<Record>, draws: seq<Draw>)
    requires |draws| == |records|
    requires AllHaveRequiredFields(records)
    requires FreshDraws(s, draws)
    ensures forall x, y :: x in Accepted(s.employees, cid, records, draws) && y in s.employees ==>
      x.id != y.id && x.email != y.email
  {
    AcceptedShape(s.employees, cid, records, draws);
    forall x, y | x in Accepted(s.employees, cid, records, draws) && y in s.employees
      ensures x.id != y.id && x.email != y.email
    {
      var k :| 0 <= k < |records| && x == Enrollee(cid, records[k], draws[k]);
    }
  }

  /** Two key-distinct employee tables with no key in common concatenate to one. */
  lemma EmployeesAppendDistinct(a: seq<Employee>, b: seq<Employee>)
    requires EmployeeKeysDistinct(a) && EmployeeKeysDistinct(b)
    requires forall x, y :: x in b && y in a ==> x.id != y.id && x.email != y.email
    ensures EmployeeKeysDistinct(a + b)
  {
    var es := a + b;
    var n := |a|;
    forall i, j | 0 <= i < j < |es|
      ensures es[i].id != es[j].id && es[i].email != es[j].email
    {
      if j >= n && i < n {
        assert es[j] == b[j - n] && b[j - n] in b;
        assert es[i] == a[i] && a[i] in a;
      } else if i >= n {
        assert es[i] == b[i - n] && es[j] == b[j - n];
      }
    }
  }

  lemma EmployeesDistinctAfter(s: Store, cid: string, records: seq<Record>, draws: seq<Draw>)
    requires |draws| == |records|
    requires AllHaveRequiredFields(records)
    requires FreshDraws(s, draws)
    requires EmployeeKeysDistinct(s.employees)
    ensures EmployeeKeysDistinct(s.employees + Accepted(s.employees, cid, records, draws))
  {
    AcceptedShape(s.employees, cid, records, draws);
    AcceptedAgainstPrior(s, cid, records, draws);
    EmployeesAppendDistinct(s.employees, Accepted(s.employees, cid, records, draws));
  }

  lemma ResultsDistinctAfter(s: Store, cid: string, draws: seq<Draw>)
    requires FreshDraws(s, draws)
    requires ResultKeysDistinct(s.results)
    ensures ResultKeysDistinct(s.results + NewResults(cid, draws))
  {
    NewResultsShape(cid, draws);
    var rs := s.results + NewResults(cid, draws);
    var n := |s.results|;
    forall i, j | 0 <= i < j < |rs|
      ensures rs[i].id != rs[j].id && rs[i].token != rs[j].token
    {
      if j >= n && i < n {
        assert rs[j] == NewResult(cid, draws[j - n]);
        assert rs[i] in s.results;
      } else if i >= n {
        assert rs[i] == NewResult(cid, draws[i - n]) && rs[j] == NewResult(cid, draws[j - n]);
      }
    }
  }

  lemma SameCampaignAfter(s: Store, cid: string, records: seq<Record>, draws: seq<Draw>)
    requires |draws| == |records|
    requires AllHaveRequiredFields(records)
    requires FreshDraws(s, draws)
    requires SameCampaign(s.employees, s.results)
    ensures SameCampaign(s.employees + Accepted(s.employees, cid, records, draws), s.results + NewResults(cid, draws))
  {
    var acc := Accepted(s.employees, cid, records, draws);
    AcceptedShape(s.employees, cid, records, draws);
    NewResultsShape(cid, draws);
    var es, rs := s.employees + acc, s.results + NewResults(cid, draws);
    forall r, e | r in rs && e in es && e.id == r.employeeId
      ensures e.campaignId == r.campaignId
    {
      if r in s.results && e in acc {
        var k :| 0 <= k < |records| && e == Enrollee(cid, records[k], draws[k]);
        assert EmployeeIdReferenced(s.results, draws[k].employeeId);
      } else if r !in s.results {
        var k :| 0 <= k < |draws| && NewResults(cid, draws)[k] == r;
        assert r == NewResult(cid, draws[k]);
      }
    }
  }

  /** With fresh ids, enrolment keeps every key distinct and creates no
      cross-campaign result. */
  lemma AddEmployeesPreservesValid(s: Store, cid: string, records: seq<Record>, draws: seq<Draw>)
    requires Valid(s)
    requires |draws| == |records|
    requires FreshDraws(s, draws)
    ensures var r := AddEmployees(s, cid, records, draws);
      r.Ok? ==> Valid(r.value)
  {
    if |records| > 0 && AllHaveRequiredFields(records) {
      InsertAllFresh(s, cid, records, draws);
      EmployeesDistinctAfter(s, cid, records, draws);
      ResultsDistinctAfter(s, cid, draws);
      SameCampaignAfter(s, cid, records, draws);
    }
  }
}
