/** `get_stats`: the campaign's overall figures, counted over every result row of
    the campaign (orphans included), and the per-department breakdown, counted
    over the employees-results join (orphans excluded). Rates are exact ratios;
    the two-decimal float rounding is not modelled.
 */
module Stats {
  import opened Store

  // Overall figures

  /** The three 0/1 columns of `results` that `get_stats` sums. */
  datatype Flag = EmailSentFlag | LinkClickedFlag | ReportedFlag

  predicate Flagged(r: ResultRecord, f: Flag) {
    match f
    case EmailSentFlag => r.emailSent
    case LinkClickedFlag => r.linkClicked
    case ReportedFlag => r.phishingReported
  }

  /** `SUM(column)` over some rows, with SQL's NULL for no rows read as 0 (`or 0`). */
  function CountFlag(rs: seq<ResultRecord>, f: Flag): (n: nat)
    ensures n <= |rs|
    ensures n == 0 <==> forall x :: x in rs ==> !Flagged(x, f)
    ensures n == |rs| <==> forall x :: x in rs ==> Flagged(x, f)
  {
    if |rs| == 0 then 0
    else
      assert rs == [rs[0]] + rs[1..];
      (if Flagged(rs[0], f) then 1 else 0) + CountFlag(rs[1..], f)
  }

  lemma {:induction false} CountFlagAppend(a: seq<ResultRecord>, b: seq<ResultRecord>, f: Flag)
    ensures CountFlag(a + b, f) == CountFlag(a, f) + CountFlag(b, f)
  {
    if |a| == 0 {
      assert a + b == b;
    } else {
      assert (a + b)[1..] == a[1..] + b;
      CountFlagAppend(a[1..], b, f);
    }
  }

  /** `round(part / total * 100, 2) if total > 0 else 0`, without the rounding. */
  function Rate(part: nat, total: nat): (r: real)
    ensures total == 0 ==> r == 0.0
    ensures total > 0 ==> r * (total as real) == (part as real) * 100.0
    ensures part <= total ==> 0.0 <= r <= 100.0
  {
    if total > 0 then (part as real) * 100.0 / (total as real) else 0.0
  }

  // Per-department breakdown

  /** One row of the `GROUP BY e.department` query. */
  datatype DepartmentStats = DepartmentStats(department: string, total: nat, clicked: nat, reported: nat)

  function Department(row: JoinRow): string {
    row.employee.department
  }

  /** The joined rows of one department, in order. */
  function DepartmentRows(rows: seq<JoinRow>, d: string): (out: seq<JoinRow>)
    ensures |out| <= |rows|
    ensures forall row :: row in out <==> row in rows && Department(row) == d
  {
    if |rows| == 0 then []
    else
      var last := rows[|rows| - 1];
      assert rows == rows[..|rows| - 1] + [last];
      DepartmentRows(rows[..|rows| - 1], d) + (if Department(last) == d then [last] else [])
  }

  /** The joined rows whose result has the flag set. */
  function CountJoined(rows: seq<JoinRow>, f: Flag): (n: nat)
    ensures n <= |rows|
  {
    if |rows| == 0 then 0
    else CountJoined(rows[..|rows| - 1], f) + (if Flagged(rows[|rows| - 1].result, f) then 1 else 0)
  }

  /** The index of the group of department `d`, or `|groups|` when there is none. */
  function Position(groups: seq<DepartmentStats>, d: string): (k: nat)
    ensures k <= |groups|
    ensures k < |groups| ==> groups[k].department == d
    ensures forall j :: 0 <= j < k ==> groups[j].department != d
  {
    if |groups| == 0 then 0
    else if groups[0].department == d then 0
    else 1 + Position(groups[1..], d)
  }

  function Bump(g: DepartmentStats, row: JoinRow): DepartmentStats {
    DepartmentStats(g.department, g.total + 1,
      g.clicked + (if row.result.linkClicked then 1 else 0),
      g.reported + (if row.result.phishingReported then 1 else 0))
  }

  /** Adds one joined row to its department's group, opening the group at the end
      when the department is new. */
  function Tally(groups: seq<DepartmentStats>, row: JoinRow): seq<DepartmentStats> {
    var k := Position(groups, Department(row));
    if k < |groups| then groups[k := Bump(groups[k], row)]
    else groups + [Bump(DepartmentStats(Department(row), 0, 0, 0), row)]
  }

  /** The groups in order of each department's first joined row. SQLite's own
      group order is not modelled. */
  function GroupByDepartment(rows: seq<JoinRow>): seq<DepartmentStats> {
    if |rows| == 0 then []
    else Tally(GroupByDepartment(rows[..|rows| - 1]), rows[|rows| - 1])
  }

  function SumTotals(groups: seq<DepartmentStats>): nat {
    if |groups| == 0 then 0 else SumTotals(groups[..|groups| - 1]) + groups[|groups| - 1].total
  }

  predicate DepartmentsDistinct(groups: seq<DepartmentStats>) {
    forall i, j :: 0 <= i < j < |groups| ==> groups[i].department != groups[j].department
  }

  /** Each group holds its department's row count, which is positive, and the
      clicked and reported counts among those rows. */
  predicate Counted(groups: seq<DepartmentStats>, rows: seq<JoinRow>) {
    forall i :: 0 <= i < |groups| ==> GroupCounts(groups[i], rows)
  }

  predicate GroupCounts(g: DepartmentStats, rows: seq<JoinRow>) {
    var dr := DepartmentRows(rows, g.department);
    && g.total == |dr| > 0
    && g.clicked == CountJoined(dr, LinkClickedFlag)
    && g.reported == CountJoined(dr, ReportedFlag)
  }

  predicate Covers(groups: seq<DepartmentStats>, rows: seq<JoinRow>) {
    forall row :: row in rows ==> exists i :: 0 <= i < |groups| && groups[i].department == Department(row)
  }

  /** `groups` is the breakdown of `rows`: one group per department present, each
      department once, each group holding its department's counts, and the
      totals adding up to the number of rows. */
  predicate Grouped(groups: seq<DepartmentStats>, rows: seq<JoinRow>) {
    && DepartmentsDistinct(groups)
    && Counted(groups, rows)
    && Covers(groups, rows)
    && SumTotals(groups) == |rows|
  }

  lemma {:induction false} SumTotalsUpdate(groups: seq<DepartmentStats>, k: nat, g: DepartmentStats)
    requires k < |groups|
    ensures SumTotals(groups[k := g]) + groups[k].total == SumTotals(groups) + g.total
  {
    var n := |groups|;
    var u := groups[k := g];
    if k < n - 1 {
      assert u[..n - 1] == groups[..n - 1][k := g];
      SumTotalsUpdate(groups[..n - 1], k, g);
    } else {
      assert u[..n - 1] == groups[..n - 1];
    }
  }

  lemma DepartmentRowsLast(rows: seq<JoinRow>, row: JoinRow, e: string)
    ensures DepartmentRows(rows + [row], e) == DepartmentRows(rows, e) + (if Department(row) == e then [row] else [])
  {
    assert (rows + [row])[..|rows|] == rows;
  }

  lemma CountJoinedLast(rows: seq<JoinRow>, row: JoinRow, f: Flag)
    ensures CountJoined(rows + [row], f) == CountJoined(rows, f) + (if Flagged(row.result, f) then 1 else 0)
  {
    assert (rows + [row])[..|rows|] == rows;
  }

  /** A group of another department keeps its counts when a row is added. */
  lemma GroupCountsOther(g: DepartmentStats, rows: seq<JoinRow>, row: JoinRow)
    requires GroupCounts(g, rows) && g.department != Department(row)
    ensures GroupCounts(g, rows + [row])
  {
    DepartmentRowsLast(rows, row, g.department);
    assert DepartmentRows(rows, g.department) + [] == DepartmentRows(rows, g.department);
  }

  /** The row's own group, bumped, holds the new counts. */
  lemma GroupCountsBumped(g: DepartmentStats, rows: seq<JoinRow>, row: JoinRow)
    requires g.department == Department(row)
    requires g.total == |DepartmentRows(rows, g.department)|
    requires g.clicked == CountJoined(DepartmentRows(rows, g.department), LinkClickedFlag)
    requires g.reported == CountJoined(DepartmentRows(rows, g.department), ReportedFlag)
    ensures GroupCounts(Bump(g, row), rows + [row])
  {
    var d := g.department;
    DepartmentRowsLast(rows, row, d);
    CountJoinedLast(DepartmentRows(rows, d), row, LinkClickedFlag);
    CountJoinedLast(DepartmentRows(rows, d), row, ReportedFlag);
  }

  /** With no group for its department, the row's department has no earlier rows. */
  lemma AbsentDepartmentHasNoRows(groups: seq<DepartmentStats>, rows: seq<JoinRow>, d: string)
    requires Covers(groups, rows)
    requires forall j :: 0 <= j < |groups| ==> groups[j].department != d
    ensures DepartmentRows(rows, d) == []
  {
  }

  lemma {:induction false} TallyCounted(groups: seq<DepartmentStats>, rows: seq<JoinRow>, row: JoinRow)
    requires Grouped(groups, rows)
    ensures Counted(Tally(groups, row), rows + [row])
    ensures SumTotals(Tally(groups, row)) == |rows| + 1
  {
    var d := Department(row);
    var k := Position(groups, d);
    var out := Tally(groups, row);
    forall i | 0 <= i < |out| ensures GroupCounts(out[i], rows + [row]) {
      if i < |groups| && i != k {
        assert out[i] == groups[i] && GroupCounts(groups[i], rows);
        GroupCountsOther(groups[i], rows, row);
      } else if i < |groups| {
        assert GroupCounts(groups[k], rows);
        GroupCountsBumped(groups[k], rows, row);
      } else {
        AbsentDepartmentHasNoRows(groups, rows, d);
        GroupCountsBumped(DepartmentStats(d, 0, 0, 0), rows, row);
      }
    }
    if k < |groups| {
      SumTotalsUpdate(groups, k, Bump(groups[k], row));
    } else {
      assert out[..|out| - 1] == groups;
    }
  }

  lemma TallyDistinct(groups: seq<DepartmentStats>, row: JoinRow)
    requires DepartmentsDistinct(groups)
    ensures DepartmentsDistinct(Tally(groups, row))
  {
    var k := Position(groups, Department(row));
    var out := Tally(groups, row);
    assert forall i :: 0 <= i < |groups| ==> out[i].department == groups[i].department;
  }

  lemma TallyCovers(groups: seq<DepartmentStats>, rows: seq<JoinRow>, row: JoinRow)
    requires Covers(groups, rows)
    ensures Covers(Tally(groups, row), rows + [row])
  {
    var d := Department(row);
    var k := Position(groups, d);
    var out := Tally(groups, row);
    assert out[k].department == d;
    forall x | x in rows + [row] && x != row ensures exists i :: 0 <= i < |out| && out[i].department == Department(x) {
      var i :| 0 <= i < |groups| && groups[i].department == Department(x);
      assert out[i].department == Department(x);
    }
  }

  lemma TallyStep(groups: seq<DepartmentStats>, rows: seq<JoinRow>, row: JoinRow)
    requires Grouped(groups, rows)
    ensures Grouped(Tally(groups, row), rows + [row])
  {
    TallyCounted(groups, rows, row);
    TallyDistinct(groups, row);
    TallyCovers(groups, rows, row);
  }

  /** The fold produces the breakdown of the joined rows. */
  lemma {:induction false} GroupByDepartmentGrouped(rows: seq<JoinRow>)
    ensures Grouped(GroupByDepartment(rows), rows)
  {
    if |rows| > 0 {
      var init := rows[..|rows| - 1];
      assert init + [rows[|rows| - 1]] == rows;
      GroupByDepartmentGrouped(init);
      TallyStep(GroupByDepartment(init), init, rows[|rows| - 1]);
    }
  }

  // get_stats

  datatype CampaignStats = CampaignStats(
    totalEmployees: nat,
    emailsSent: nat,
    linksClicked: nat,
    phishingReported: nat,
    clickRate: real,
    reportRate: real,
    departmentStats: seq<DepartmentStats>)

  /** The statistics of campaign `cid`; an unknown id is not an error and yields zeros. */
  function GetStats(s: Store, cid: string): (st: CampaignStats)
    ensures st.totalEmployees == |CampaignResults(s.results, cid)|
    ensures st.emailsSent == CountFlag(CampaignResults(s.results, cid), EmailSentFlag)
    ensures st.linksClicked == CountFlag(CampaignResults(s.results, cid), LinkClickedFlag)
    ensures st.phishingReported == CountFlag(CampaignResults(s.results, cid), ReportedFlag)
    ensures st.emailsSent <= st.totalEmployees
    ensures st.linksClicked <= st.totalEmployees
    ensures st.phishingReported <= st.totalEmployees
    ensures st.totalEmployees == 0 ==> st.clickRate == 0.0 && st.reportRate == 0.0
    ensures st.clickRate == Rate(st.linksClicked, st.totalEmployees)
    ensures st.reportRate == Rate(st.phishingReported, st.totalEmployees)
    ensures 0.0 <= st.clickRate <= 100.0 && 0.0 <= st.reportRate <= 100.0
    ensures Grouped(st.departmentStats, Join(s.employees, s.results, cid))
  {
    var rs := CampaignResults(s.results, cid);
    var total := |rs|;
    var clicked := CountFlag(rs, LinkClickedFlag);
    var reported := CountFlag(rs, ReportedFlag);
    var rows := Join(s.employees, s.results, cid);
    GroupByDepartmentGrouped(rows);
    CampaignStats(total, CountFlag(rs, EmailSentFlag), clicked, reported,
      Rate(clicked, total), Rate(reported, total), GroupByDepartment(rows))
  }

  // Orphans in the figures

  /** The campaign's results whose `employee_id` matches no employee. */
  function CampaignOrphans(es: seq<Employee>, rs: seq<ResultRecord>, cid: string): (out: seq<ResultRecord>)
    ensures forall x :: x in out <==> x in rs && x.campaignId == cid && !EmployeeIdUsed(es, x.employeeId)
  {
    if |rs| == 0 then []
    else
      (if rs[0].campaignId == cid && !EmployeeIdUsed(es, rs[0].employeeId) then [rs[0]] else [])
      + CampaignOrphans(es, rs[1..], cid)
  }

  lemma {:induction false} JoinPlusOrphansFrom(s: Store, rs: seq<ResultRecord>, cid: string)
    requires Valid(s)
    requires forall x :: x in rs ==> x in s.results
    ensures |Join(s.employees, rs, cid)| + |CampaignOrphans(s.employees, rs, cid)| == |CampaignResults(rs, cid)|
  {
    if |rs| > 0 {
      var x := rs[0];
      JoinPlusOrphansFrom(s, rs[1..], cid);
      PartnersInValid(s, x, cid);
      var m := Partners(s.employees, x, cid);
      PairMembers(m, x);
      if x.campaignId == cid && EmployeeIdUsed(s.employees, x.employeeId) {
        var e :| e in s.employees && e.id == x.employeeId;
        assert e in m;
      }
    }
  }

  /** In a valid store every result of the campaign is either joined to exactly
      one employee, and then counted in the department breakdown, or an orphan:
      the overall total is the breakdown's total plus the orphans. */
  lemma TotalCountsOrphans(s: Store, cid: string)
    requires Valid(s)
    ensures var st := GetStats(s, cid);
      st.totalEmployees == SumTotals(st.departmentStats) + |CampaignOrphans(s.employees, s.results, cid)|
  {
    JoinPlusOrphansFrom(s, s.results, cid);
  }

  /** The department totals never exceed the overall total. */
  lemma BreakdownWithinTotal(s: Store, cid: string)
    requires Valid(s)
    ensures var st := GetStats(s, cid);
      && SumTotals(st.departmentStats) <= st.totalEmployees
      && forall i :: 0 <= i < |st.departmentStats| ==> st.departmentStats[i].total <= st.totalEmployees
  {
    TotalCountsOrphans(s, cid);
    var g := GetStats(s, cid).departmentStats;
    forall i | 0 <= i < |g| ensures g[i].total <= SumTotals(g) {
      SumTotalsBoundsEach(g, i);
    }
  }

  lemma {:induction false} SumTotalsBoundsEach(groups: seq<DepartmentStats>, i: nat)
    requires i < |groups|
    ensures groups[i].total <= SumTotals(groups)
  {
    if i < |groups| - 1 {
      SumTotalsBoundsEach(groups[..|groups| - 1], i);
    }
  }

  /** A campaign id no result carries, for instance an unknown one, is not an
      error: every figure is zero and the breakdown is empty. */
  lemma GetStatsOfEmptyCampaign(s: Store, cid: string)
    requires Valid(s)
    requires forall x :: x in s.results ==> x.campaignId != cid
    ensures GetStats(s, cid) == CampaignStats(0, 0, 0, 0, 0.0, 0.0, [])
  {
    JoinPlusOrphansFrom(s, s.results, cid);
  }
}
