/** How the operations move the campaign statistics: enrolment raises the total
    by one per record and leaves the three sums alone, and re-enrolling e-mails
    that are already in the table raises the total while the per-department
    breakdown stays as it was, because every new result is an orphan.
 */
module Lifecycle {
  import opened Outcomes
  import opened Store
  import opened Enrollment
  import opened Stats

  /** Rows all of campaign `cid` with every flag 0. */
  predicate Untouched(rs: seq<ResultRecord>, cid: string) {
    forall i :: 0 <= i < |rs| ==>
      rs[i].campaignId == cid && !rs[i].emailSent && !rs[i].linkClicked && !rs[i].phishingReported
  }

  lemma {:induction false} UntouchedCounts(rs: seq<ResultRecord>, cid: string)
    requires Untouched(rs, cid)
    ensures CampaignResults(rs, cid) == rs
    ensures forall f :: CountFlag(rs, f) == 0
  {
    if |rs| > 0 {
      UntouchedCounts(rs[1..], cid);
      assert rs == [rs[0]] + rs[1..];
    }
  }

  /** Appending fresh rows of the campaign adds to its total and to none of its sums. */
  lemma AppendUntouched(rs: seq<ResultRecord>, extra: seq<ResultRecord>, cid: string)
    requires Untouched(extra, cid)
    ensures |CampaignResults(rs + extra, cid)| == |CampaignResults(rs, cid)| + |extra|
    ensures forall f :: CountFlag(CampaignResults(rs + extra, cid), f) == CountFlag(CampaignResults(rs, cid), f)
  {
    CampaignResultsAppend(rs, extra, cid);
    UntouchedCounts(extra, cid);
    forall f ensures CountFlag(CampaignResults(rs + extra, cid), f) == CountFlag(CampaignResults(rs, cid), f) {
      CountFlagAppend(CampaignResults(rs, cid), extra, f);
    }
  }

  /** A committed enrolment of N records raises the campaign's total by N, whether
      or not the e-mails were new, and leaves sent, clicked and reported as they were. */
  lemma AddEmployeesStats(s: Store, cid: string, records: seq<Record>, draws: seq<Draw>)
    requires |draws| == |records|
    requires AddEmployees(s, cid, records, draws).Ok?
    ensures var before := GetStats(s, cid);
      var after := GetStats(AddEmployees(s, cid, records, draws).value, cid);
      && after.totalEmployees == before.totalEmployees + |records|
      && after.emailsSent == before.emailsSent
      && after.linksClicked == before.linksClicked
      && after.phishingReported == before.phishingReported
  {
    var r := AddEmployees(s, cid, records, draws).value;
    var extra := r.results[|s.results|..];
    assert r.results == s.results + extra;
    AppendUntouched(s.results, extra, cid);
  }

  /** With every e-mail already taken, no employee row is accepted. */
  lemma {:induction false} AcceptedNoneWhenAllTaken(prior: seq<Employee>, cid: string, recs: seq<Record>, draws: seq<Draw>)
    requires |draws| == |recs|
    requires AllHaveRequiredFields(recs)
    requires forall i :: 0 <= i < |recs| ==> EmailUsed(prior, recs[i]["email"])
    ensures Accepted(prior, cid, recs, draws) == []
  {
    if |recs| > 0 {
      assert AllHaveRequiredFields(recs[1..]) by {
        forall i | 0 <= i < |recs[1..]| ensures HasRequiredFields(recs[1..][i]) {
          assert recs[1..][i] == recs[i + 1];
        }
      }
      assert forall i :: 0 <= i < |recs[1..]| ==> recs[1..][i] == recs[i + 1];
      AcceptedNoneWhenAllTaken(prior, cid, recs[1..], draws[1..]);
    }
  }

  /** Re-enrolling e-mails that are all already in the table: the employees are
      unchanged, the total grows by one per record, and the per-department
      breakdown is exactly what it was, since the new results join no employee. */
  lemma ReEnrollmentKeepsBreakdown(s: Store, cid: string, records: seq<Record>, draws: seq<Draw>)
    requires |draws| == |records| > 0
    requires AllHaveRequiredFields(records)
    requires FreshDraws(s, draws)
    requires forall i :: 0 <= i < |records| ==> EmailUsed(s.employees, records[i]["email"])
    ensures var r := AddEmployees(s, cid, records, draws);
      && r.Ok?
      && r.value.employees == s.employees
      && GetStats(r.value, cid).totalEmployees == GetStats(s, cid).totalEmployees + |records|
      && GetStats(r.value, cid).departmentStats == GetStats(s, cid).departmentStats
  {
    InsertAllFresh(s, cid, records, draws);
    AcceptedNoneWhenAllTaken(s.employees, cid, records, draws);
    assert s.employees + [] == s.employees;
    var extra := NewResults(cid, draws);
    NewResultsShape(cid, draws);
    AddEmployeesStats(s, cid, records, draws);
    JoinAppend(s.employees, s.results, extra, cid);
    forall i | 0 <= i < |extra| ensures !EmployeeIdUsed(s.employees, extra[i].employeeId) {
      assert extra[i].employeeId == draws[i].employeeId;
    }
    JoinOfOrphans(s.employees, extra, cid);
    assert Join(s.employees, s.results + extra, cid) == Join(s.employees, s.results, cid);
  }
}
