/** One campaign from start to finish: create it, enrol three employees in two
    departments, generate the e-mails, record one click and one report, and read
    the statistics.
 */
module Scenario {
  import opened Outcomes
  import opened Store
  import opened Campaigns
  import opened Enrollment
  import opened Events
  import opened Emails
  import opened Stats

  const Alice: Record := map["email" := "alice@x.com", "name" := "Alice", "department" := "Eng"]
  const Bob: Record := map["email" := "bob@x.com", "name" := "Bob", "department" := "Eng"]
  const Carol: Record := map["email" := "carol@x.com", "name" := "Carol", "department" := "Sales"]

  const Draws: seq<Draw> := [Draw("e1", "k1", "r1"), Draw("e2", "k2", "r2"), Draw("e3", "k3", "r3")]

  const Q1: Campaign := Campaign("c1", "Q1", "password_reset", "t0", ActiveStatus)

  const AliceRow: Employee := Employee("e1", "alice@x.com", "Alice", "Eng", "c1")
  const BobRow: Employee := Employee("e2", "bob@x.com", "Bob", "Eng", "c1")
  const CarolRow: Employee := Employee("e3", "carol@x.com", "Carol", "Sales", "c1")

  function Fresh(d: Draw): ResultRecord {
    ResultRecord(d.resultId, d.employeeId, "c1", false, false, false, None, None, d.token)
  }

  lemma Created()
    ensures CreateCampaign(EmptyStore, "Q1", "password_reset", "c1", "t0") == Ok(Store([Q1], [], []))
  {
    assert "password_reset" in Templates.Catalog by {
      Templates.CatalogShape();
    }
  }

  lemma EnrolleeRows()
    ensures Enrollee("c1", Alice, Draws[0]) == AliceRow
    ensures Enrollee("c1", Bob, Draws[1]) == BobRow
    ensures Enrollee("c1", Carol, Draws[2]) == CarolRow
  {
  }

  lemma AcceptedAll()
    ensures Accepted([], "c1", [Alice, Bob, Carol], Draws) == [AliceRow, BobRow, CarolRow]
  {
    var r0 := [Alice, Bob, Carol];
    var r1 := r0[1..];
    var r2 := r1[1..];
    var d1 := Draws[1..];
    var d2 := d1[1..];
    assert r1[0] == Bob && r2[0] == Carol && |r2| == 1;
    assert d1[0] == Draws[1] && d2[0] == Draws[2];
    EnrolleeRows();
    var p1 := [] + [AliceRow];
    var p2 := p1 + [BobRow];
    var p3 := p2 + [CarolRow];
    assert Accepted(p3, "c1", r2[1..], d2[1..]) == [];
    assert !EmailUsed(p2, "carol@x.com");
    assert Accepted(p2, "c1", r2, d2) == [CarolRow];
    assert !EmailUsed(p1, "bob@x.com");
    assert Accepted(p1, "c1", r1, d1) == [BobRow, CarolRow];
    assert !EmailUsed([], "alice@x.com");
  }

  lemma DrawsFresh()
    ensures FreshDraws(Store([Q1], [], []), Draws)
  {
  }

  lemma RecordsComplete()
    ensures AllHaveRequiredFields([Alice, Bob, Carol])
  {
    var recs := [Alice, Bob, Carol];
    forall i | 0 <= i < 3 ensures HasRequiredFields(recs[i]) {
      if i == 0 {} else if i == 1 {} else {}
    }
  }

  lemma FreshResults()
    ensures NewResults("c1", Draws) == [Fresh(Draws[0]), Fresh(Draws[1]), Fresh(Draws[2])]
  {
    var d1 := Draws[1..];
    var d2 := d1[1..];
    assert d1[0] == Draws[1] && d2[0] == Draws[2] && d2[1..] == [];
    assert NewResults("c1", d2) == [Fresh(Draws[2])];
    assert NewResults("c1", d1) == [Fresh(Draws[1]), Fresh(Draws[2])];
  }

  /** Enrolling the three records into the new campaign: three employee rows and
      three fresh result rows. */
  lemma Enrolled()
    ensures AddEmployees(Store([Q1], [], []), "c1", [Alice, Bob, Carol], Draws) == Ok(Enrolled3)
  {
    var s1 := Store([Q1], [], []);
    var recs := [Alice, Bob, Carol];
    DrawsFresh();
    RecordsComplete();
    InsertAllFresh(s1, "c1", recs, Draws);
    AcceptedAll();
    FreshResults();
    assert AddEmployees(s1, "c1", recs, Draws) == InsertAll(s1, "c1", recs, Draws);
    assert [] + [AliceRow, BobRow, CarolRow] == [AliceRow, BobRow, CarolRow];
    assert [] + [Fresh(Draws[0]), Fresh(Draws[1]), Fresh(Draws[2])] == Enrolled3.results;
  }

  /** A result joins exactly the one employee carrying its id. */
  lemma PartnersOf(es: seq<Employee>, r: ResultRecord, e: Employee)
    requires forall i, j :: 0 <= i < j < |es| ==> es[i].id != es[j].id
    requires e in es && e.id == r.employeeId && e.campaignId == "c1"
    ensures Partners(es, r, "c1") == [e]
  {
    PartnersAtMostOne(es, r, "c1");
    var m := Partners(es, r, "c1");
    assert e in m;
    assert m[0] == e;
  }

  lemma PairOne(e: Employee, r: ResultRecord)
    ensures Pair([e], r) == [JoinRow(e, r)]
  {
    assert [e][1..] == [];
  }

  const Enrolled3: Store := Store([Q1], [AliceRow, BobRow, CarolRow], [Fresh(Draws[0]), Fresh(Draws[1]), Fresh(Draws[2])])

  /** A first result with exactly one partner contributes one joined row. */
  lemma JoinOne(es: seq<Employee>, rs: seq<ResultRecord>, e: Employee)
    requires |rs| > 0 && Partners(es, rs[0], "c1") == [e]
    ensures Join(es, rs, "c1") == [JoinRow(e, rs[0])] + Join(es, rs[1..], "c1")
  {
    PairOne(e, rs[0]);
  }

  /** Three results with one partner each join in order, one row per result. */
  lemma JoinThree(es: seq<Employee>, rs: seq<ResultRecord>, e1: Employee, e2: Employee, e3: Employee)
    requires |rs| == 3
    requires Partners(es, rs[0], "c1") == [e1]
    requires Partners(es, rs[1], "c1") == [e2]
    requires Partners(es, rs[2], "c1") == [e3]
    ensures Join(es, rs, "c1") == [JoinRow(e1, rs[0]), JoinRow(e2, rs[1]), JoinRow(e3, rs[2])]
  {
    JoinOne(es, rs, e1);
    JoinOne(es, rs[1..], e2);
    JoinOne(es, rs[1..][1..], e3);
    assert |rs[1..][1..][1..]| == 0;
  }

  /** Results for e1, e2 and e3 join Alice, Bob and Carol. */
  lemma EnrolledPartners(r1: ResultRecord, r2: ResultRecord, r3: ResultRecord)
    requires r1.employeeId == "e1" && r2.employeeId == "e2" && r3.employeeId == "e3"
    ensures Join(Enrolled3.employees, [r1, r2, r3], "c1") == [JoinRow(AliceRow, r1), JoinRow(BobRow, r2), JoinRow(CarolRow, r3)]
  {
    var es := Enrolled3.employees;
    PartnersOf(es, r1, AliceRow);
    PartnersOf(es, r2, BobRow);
    PartnersOf(es, r3, CarolRow);
    JoinThree(es, [r1, r2, r3], AliceRow, BobRow, CarolRow);
  }

  function Sent3(d: Draw): ResultRecord {
    Fresh(d).(emailSent := true)
  }

  const Generated3: Store := Store([Q1], Enrolled3.employees, [Sent3(Draws[0]), Sent3(Draws[1]), Sent3(Draws[2])])

  lemma EnrolledJoin()
    ensures Join(Enrolled3.employees, Enrolled3.results, "c1") ==
      [JoinRow(AliceRow, Fresh(Draws[0])), JoinRow(BobRow, Fresh(Draws[1])), JoinRow(CarolRow, Fresh(Draws[2]))]
  {
    EnrolledPartners(Fresh(Draws[0]), Fresh(Draws[1]), Fresh(Draws[2]));
  }

  lemma GenerationCommits()
    ensures FindCampaign(Enrolled3.campaigns, "c1") == Some(Q1)
    ensures Q1.template in Templates.Catalog
  {
    Templates.CatalogShape();
  }

  /** Each result's token is among the tokens of rows that carry those results. */
  lemma TokensJoined(rs: seq<ResultRecord>, rows: seq<JoinRow>)
    requires |rows| == |rs|
    requires forall k :: 0 <= k < |rs| ==> rows[k].result == rs[k]
    ensures forall k :: 0 <= k < |rs| ==> rs[k].token in JoinedTokens(rows)
  {
    forall k | 0 <= k < |rs| ensures rs[k].token in JoinedTokens(rows) {
      assert rows[k].result.token == rs[k].token;
    }
  }

  /** Marking every row whose token was joined marks all of them. */
  lemma MarkedEach(rs: seq<ResultRecord>, rows: seq<JoinRow>)
    requires |rs| == 3
    requires forall k :: 0 <= k < 3 ==> rs[k].token in JoinedTokens(rows)
    ensures MarkSentAll(rs, rows) == [Sent(rs[0]), Sent(rs[1]), Sent(rs[2])]
  {
  }

  /** Marking the rows of three joined results marks all three. */
  lemma MarkedThree(rs: seq<ResultRecord>, rows: seq<JoinRow>, a: Employee, b: Employee, c: Employee)
    requires |rs| == 3
    requires rows == [JoinRow(a, rs[0]), JoinRow(b, rs[1]), JoinRow(c, rs[2])]
    ensures MarkSentAll(rs, rows) == [Sent(rs[0]), Sent(rs[1]), Sent(rs[2])]
  {
    TokensJoined(rs, rows);
    MarkedEach(rs, rows);
  }

  lemma MarkedAll()
    ensures MarkSentAll(Enrolled3.results, Join(Enrolled3.employees, Enrolled3.results, "c1")) == Generated3.results
  {
    EnrolledJoin();
    MarkedThree(Enrolled3.results, Join(Enrolled3.employees, Enrolled3.results, "c1"), AliceRow, BobRow, CarolRow);
  }

  /** Generation writes one e-mail per employee and marks all three results as sent. */
  lemma Generated()
    ensures GenerateEmails(Enrolled3, "c1", "emails").Ok?
    ensures |GenerateEmails(Enrolled3, "c1", "emails").value.emails| == 3
    ensures GenerateEmails(Enrolled3, "c1", "emails").value.store == Generated3
  {
    GenerationCommits();
    EnrolledJoin();
    MarkedAll();
    var r := GenerateEmails(Enrolled3, "c1", "emails");
    assert r.Ok?;
    assert r.value.store.results == Generated3.results;
  }

  const Final: Store := Store([Q1], Enrolled3.employees, [
    Sent3(Draws[0]).(linkClicked := true, clickedAt := Some("t1")),
    Sent3(Draws[1]).(phishingReported := true, reportedAt := Some("t2")),
    Sent3(Draws[2])])

  const Clicked3: Store := Store([Q1], Enrolled3.employees, [
    Sent3(Draws[0]).(linkClicked := true, clickedAt := Some("t1")),
    Sent3(Draws[1]),
    Sent3(Draws[2])])

  lemma AliceClicks()
    ensures SimulateClick(Generated3, "k1", "t1") == EventResult(Clicked3, Recorded)
  {
    assert Generated3.results[0] in Generated3.results;
    var c := SimulateClick(Generated3, "k1", "t1").store;
    assert c.results[0] == Clicked3.results[0];
    assert c.results[1] == Clicked3.results[1];
    assert c.results[2] == Clicked3.results[2];
  }

  lemma BobIds()
    ensures ReporterIds(Clicked3.employees, "bob@x.com", "c1") == {"e2"}
  {
    var ids := ReporterIds(Clicked3.employees, "bob@x.com", "c1");
    assert BobRow in Clicked3.employees;
    assert "e2" in ids;
  }

  /** Reporting for the employee of the second of three results changes only that row. */
  lemma ReportSecond(rs: seq<ResultRecord>, now: string)
    requires |rs| == 3
    requires rs[0].employeeId == "e1" && rs[1].employeeId == "e2" && rs[2].employeeId == "e3"
    ensures ReportRows(rs, {"e2"}, now) == [rs[0], Reported(rs[1], now), rs[2]]
    ensures AnyReferenced(rs, {"e2"})
  {
    assert rs[1] in rs;
  }

  lemma BobReports()
    ensures ReportPhishing(Clicked3, "bob@x.com", "c1", "t2") == EventResult(Final, Recorded)
  {
    BobIds();
    ReportSecond(Clicked3.results, "t2");
  }

  /** Alice clicks her link, then Bob reports the e-mail; both are recorded. */
  lemma ClickedAndReported()
    ensures SimulateClick(Generated3, "k1", "t1").outcome == Recorded
    ensures ReportPhishing(SimulateClick(Generated3, "k1", "t1").store, "bob@x.com", "c1", "t2").outcome == Recorded
    ensures ReportPhishing(SimulateClick(Generated3, "k1", "t1").store, "bob@x.com", "c1", "t2").store == Final
  {
    AliceClicks();
    BobReports();
  }

  lemma ThreeInCampaign(rs: seq<ResultRecord>)
    requires |rs| == 3
    requires rs[0].campaignId == "c1" && rs[1].campaignId == "c1" && rs[2].campaignId == "c1"
    ensures CampaignResults(rs, "c1") == rs
  {
    assert rs[1..][1..][1..] == [];
  }

  /** Three sent rows, the first clicked and the second reported. */
  lemma ThreeCounts(rs: seq<ResultRecord>)
    requires |rs| == 3
    requires rs[0].emailSent && rs[1].emailSent && rs[2].emailSent
    requires rs[0].linkClicked && !rs[1].linkClicked && !rs[2].linkClicked
    requires !rs[0].phishingReported && rs[1].phishingReported && !rs[2].phishingReported
    ensures CountFlag(rs, EmailSentFlag) == 3
    ensures CountFlag(rs, LinkClickedFlag) == 1
    ensures CountFlag(rs, ReportedFlag) == 1
  {
    assert rs[1..][1..][1..] == [];
  }

  lemma FinalCounts()
    ensures CampaignResults(Final.results, "c1") == Final.results
    ensures CountFlag(Final.results, EmailSentFlag) == 3
    ensures CountFlag(Final.results, LinkClickedFlag) == 1
    ensures CountFlag(Final.results, ReportedFlag) == 1
  {
    ThreeInCampaign(Final.results);
    ThreeCounts(Final.results);
  }

  /** Grouping three rows whose first two share a department. */
  lemma GroupThree(rows: seq<JoinRow>)
    requires |rows| == 3
    requires Department(rows[0]) == "Eng" && Department(rows[1]) == "Eng" && Department(rows[2]) == "Sales"
    requires rows[0].result.linkClicked && !rows[0].result.phishingReported
    requires !rows[1].result.linkClicked && rows[1].result.phishingReported
    requires !rows[2].result.linkClicked && !rows[2].result.phishingReported
    ensures GroupByDepartment(rows) == [DepartmentStats("Eng", 2, 1, 1), DepartmentStats("Sales", 1, 0, 0)]
  {
    assert rows[..2][..1] == rows[..1] && rows[..1][..0] == [];
    assert rows[..3] == rows;
    assert GroupByDepartment(rows[..1]) == [DepartmentStats("Eng", 1, 1, 0)];
    assert GroupByDepartment(rows[..2]) == [DepartmentStats("Eng", 2, 1, 1)];
  }

  lemma FinalBreakdown()
    ensures GroupByDepartment(Join(Final.employees, Final.results, "c1"))
      == [DepartmentStats("Eng", 2, 1, 1), DepartmentStats("Sales", 1, 0, 0)]
  {
    EnrolledPartners(Final.results[0], Final.results[1], Final.results[2]);
    GroupThree(Join(Final.employees, Final.results, "c1"));
  }

  /** The figures at the end: three results, all sent, one click and one report,
      a third each; Eng has two employees with one click and one report, Sales one
      employee with neither. */
  lemma FinalStats()
    ensures GetStats(Final, "c1") == CampaignStats(3, 3, 1, 1, 100.0 / 3.0, 100.0 / 3.0,
      [DepartmentStats("Eng", 2, 1, 1), DepartmentStats("Sales", 1, 0, 0)])
  {
    FinalCounts();
    FinalBreakdown();
    assert Rate(1, 3) == 100.0 / 3.0;
    var st := GetStats(Final, "c1");
    assert st.totalEmployees == 3;
  }

  /** The whole story in one statement: each step succeeds and the statistics at
      the end are the ones above. */
  lemma Story()
    ensures CreateCampaign(EmptyStore, "Q1", "password_reset", "c1", "t0").Ok?
    ensures var s1 := CreateCampaign(EmptyStore, "Q1", "password_reset", "c1", "t0").value;
      && AddEmployees(s1, "c1", [Alice, Bob, Carol], Draws).Ok?
      && var s2 := AddEmployees(s1, "c1", [Alice, Bob, Carol], Draws).value;
      && GenerateEmails(s2, "c1", "emails").Ok?
      && var s3 := GenerateEmails(s2, "c1", "emails").value.store;
      && var s4 := ReportPhishing(SimulateClick(s3, "k1", "t1").store, "bob@x.com", "c1", "t2").store;
      && GetStats(s4, "c1") == CampaignStats(3, 3, 1, 1, 100.0 / 3.0, 100.0 / 3.0,
        [DepartmentStats("Eng", 2, 1, 1), DepartmentStats("Sales", 1, 0, 0)])
  {
    Created();
    Enrolled();
    Generated();
    ClickedAndReported();
    FinalStats();
  }
}
