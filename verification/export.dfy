/** `export_report`: the statistics are computed first, then the report file name
    `report_{campaign_id[:8]}.{format}` is formed and the format selects the
    writer. The CSV report is modelled as its table of cells and the JSON report
    as its document tree; the text each library writes out is not modelled.
 */
module Export {
  import opened Outcomes
  import opened Text
  import opened Store
  import opened Stats

  datatype Format = Csv | Json

  /** Only the two exact, lower-case names are accepted. */
  function ParseFormat(format: string): (r: Outcome<Format>)
    ensures r == Ok(Csv) <==> format == "csv"
    ensures r == Ok(Json) <==> format == "json"
    ensures r.Err? <==> format != "csv" && format != "json"
    ensures r.Err? ==> r.error == UnsupportedFormat(format)
  {
    if format == "csv" then Ok(Csv)
    else if format == "json" then Ok(Json)
    else Err(UnsupportedFormat(format))
  }

  /** The report file name, built from the format text as given. */
  function ReportFileName(cid: string, format: string): string {
    "report_" + Take(cid, 8) + "." + format
  }

  /** For one format, two campaigns share a report file exactly when their ids
      agree on the first eight characters. */
  lemma ReportFileNameSame(a: string, b: string, format: string)
    ensures ReportFileName(a, format) == ReportFileName(b, format) <==> Take(a, 8) == Take(b, 8)
  {
    var na, nb := ReportFileName(a, format), ReportFileName(b, format);
    var ta, tb := Take(a, 8), Take(b, 8);
    if na == nb {
      assert |ta| == |tb|;
      assert ta == na[7..7 + |ta|];
      assert tb == nb[7..7 + |tb|];
    }
  }

  /** Two campaigns whose ids share their first eight characters export to the
      same file, so the second export overwrites the first. */
  lemma ReportFileNameCollision()
    ensures "0123456789" != "0123456700"
    ensures ReportFileName("0123456789", "csv") == ReportFileName("0123456700", "csv")
  {
    assert "0123456789"[8] != "0123456700"[8];
    assert Take("0123456789", 8) == Take("0123456700", 8) == "01234567";
  }

  /** Ids of at most eight characters get file names of their own. */
  lemma ReportFileNameInjectiveOnShortIds(a: string, b: string, format: string)
    requires |a| <= 8 && |b| <= 8
    requires ReportFileName(a, format) == ReportFileName(b, format)
    ensures a == b
  {
    ReportFileNameSame(a, b, format);
  }

  // The CSV report

  /** A cell as handed to the CSV writer: text, a count, or a rate shown with `%`. */
  datatype Cell = Text(text: string) | Number(n: nat) | Percent(rate: real)

  function DepartmentRow(g: DepartmentStats): seq<Cell> {
    [Text(g.department), Number(g.total), Number(g.clicked), Number(g.reported)]
  }

  function DepartmentTable(groups: seq<DepartmentStats>): (rows: seq<seq<Cell>>)
    ensures |rows| == |groups|
    ensures forall i :: 0 <= i < |groups| ==> rows[i] == DepartmentRow(groups[i])
  {
    if |groups| == 0 then [] else [DepartmentRow(groups[0])] + DepartmentTable(groups[1..])
  }

  const CsvTitle: seq<Cell> := [Text("Статистика кампании")]
  const CsvHeader: seq<Cell> := [Text("Метрика"), Text("Значение")]
  const CsvDepartmentTitle: seq<Cell> := [Text("Статистика по отделам")]
  const CsvDepartmentHeader: seq<Cell> := [Text("Отдел"), Text("Всего"), Text("Кликов"), Text("Отчетов")]

  /** The rows the CSV writer receives, in order. */
  function CsvReport(st: CampaignStats): seq<seq<Cell>> {
    [ CsvTitle,
      CsvHeader,
      [Text("Всего сотрудников"), Number(st.totalEmployees)],
      [Text("Писем отправлено"), Number(st.emailsSent)],
      [Text("Кликов по ссылкам"), Number(st.linksClicked)],
      [Text("Отчетов о фишинге"), Number(st.phishingReported)],
      [Text("Процент кликов"), Percent(st.clickRate)],
      [Text("Процент отчетов"), Percent(st.reportRate)],
      [],
      CsvDepartmentTitle,
      CsvDepartmentHeader ]
    + DepartmentTable(st.departmentStats)
  }

  function ReadCount(row: seq<Cell>, caption: string): Option<nat> {
    if |row| == 2 && row[0] == Text(caption) && row[1].Number? then Some(row[1].n) else None
  }

  function ReadPercent(row: seq<Cell>, caption: string): Option<real> {
    if |row| == 2 && row[0] == Text(caption) && row[1].Percent? then Some(row[1].rate) else None
  }

  function ReadDepartments(rows: seq<seq<Cell>>): (r: Option<seq<DepartmentStats>>)
    ensures r.Some? ==> |r.value| == |rows|
  {
    if |rows| == 0 then Some([])
    else
      var row := rows[0];
      if |row| == 4 && row[0].Text? && row[1].Number? && row[2].Number? && row[3].Number? then
        match ReadDepartments(rows[1..])
        case None => None
        case Some(rest) => Some([DepartmentStats(row[0].text, row[1].n, row[2].n, row[3].n)] + rest)
      else None
  }

  /** Reads a CSV report table back into statistics; `None` for any other table. */
  function ReadCsvReport(rows: seq<seq<Cell>>): Option<CampaignStats> {
    if |rows| < 11 || rows[0] != CsvTitle || rows[1] != CsvHeader || rows[8] != []
       || rows[9] != CsvDepartmentTitle || rows[10] != CsvDepartmentHeader then None
    else
      var total := ReadCount(rows[2], "Всего сотрудников");
      var sent := ReadCount(rows[3], "Писем отправлено");
      var clicked := ReadCount(rows[4], "Кликов по ссылкам");
      var reported := ReadCount(rows[5], "Отчетов о фишинге");
      var clickRate := ReadPercent(rows[6], "Процент кликов");
      var reportRate := ReadPercent(rows[7], "Процент отчетов");
      var depts := ReadDepartments(rows[11..]);
      if total.None? || sent.None? || clicked.None? || reported.None?
         || clickRate.None? || reportRate.None? || depts.None? then None
      else Some(CampaignStats(total.value, sent.value, clicked.value, reported.value,
                              clickRate.value, reportRate.value, depts.value))
  }

  lemma {:induction false} ReadDepartmentsRoundTrip(groups: seq<DepartmentStats>)
    ensures ReadDepartments(DepartmentTable(groups)) == Some(groups)
  {
    if |groups| > 0 {
      ReadDepartmentsRoundTrip(groups[1..]);
      assert DepartmentTable(groups)[1..] == DepartmentTable(groups[1..]);
      assert [groups[0]] + groups[1..] == groups;
    }
  }

  /** The CSV table carries every figure: reading it back gives the statistics. */
  lemma CsvRoundTrip(st: CampaignStats)
    ensures ReadCsvReport(CsvReport(st)) == Some(st)
  {
    var rows := CsvReport(st);
    assert rows[11..] == DepartmentTable(st.departmentStats);
    ReadDepartmentsRoundTrip(st.departmentStats);
  }

  // The JSON report

  /** A JSON document tree; object members keep the dict's key order. */
  datatype JsonValue =
    | JInt(i: int)
    | JFloat(f: real)
    | JString(s: string)
    | JArray(items: seq<JsonValue>)
    | JObject(members: seq<(string, JsonValue)>)

  /** A rate as the dict holds it: the integer 0 when there are no results, a float otherwise. */
  function RateValue(st: CampaignStats, rate: real): JsonValue {
    if st.totalEmployees > 0 then JFloat(rate) else JInt(0)
  }

  function DepartmentObject(g: DepartmentStats): JsonValue {
    JObject([("department", JString(g.department)), ("total", JInt(g.total)),
             ("clicked", JInt(g.clicked)), ("reported", JInt(g.reported))])
  }

  function DepartmentArray(groups: seq<DepartmentStats>): (items: seq<JsonValue>)
    ensures |items| == |groups|
  {
    if |groups| == 0 then [] else [DepartmentObject(groups[0])] + DepartmentArray(groups[1..])
  }

  /** The dict `get_stats` returns, as the tree `json.dump` writes out. */
  function JsonReport(st: CampaignStats): JsonValue {
    JObject([
      ("total_employees", JInt(st.totalEmployees)),
      ("emails_sent", JInt(st.emailsSent)),
      ("links_clicked", JInt(st.linksClicked)),
      ("phishing_reported", JInt(st.phishingReported)),
      ("click_rate", RateValue(st, st.clickRate)),
      ("report_rate", RateValue(st, st.reportRate)),
      ("department_stats", JArray(DepartmentArray(st.departmentStats)))])
  }

  /** The value of the first member named `key`. */
  function Member(members: seq<(string, JsonValue)>, key: string): Option<JsonValue> {
    if |members| == 0 then None
    else if members[0].0 == key then Some(members[0].1)
    else Member(members[1..], key)
  }

  /** A member is found when no earlier member has its name. */
  lemma {:induction false} MemberAt(members: seq<(string, JsonValue)>, k: nat)
    requires k < |members|
    requires forall j :: 0 <= j < k ==> members[j].0 != members[k].0
    ensures Member(members, members[k].0) == Some(members[k].1)
  {
    if k > 0 {
      MemberAt(members[1..], k - 1);
    }
  }

  function ReadNat(v: Option<JsonValue>): Option<nat> {
    if v.Some? && v.value.JInt? && v.value.i >= 0 then Some(v.value.i) else None
  }

  function ReadRate(v: Option<JsonValue>): Option<real> {
    if v.Some? && v.value.JFloat? then Some(v.value.f)
    else if v.Some? && v.value.JInt? then Some(v.value.i as real)
    else None
  }

  function ReadDepartment(v: JsonValue): Option<DepartmentStats> {
    if !v.JObject? then None
    else
      var d := Member(v.members, "department");
      var total := ReadNat(Member(v.members, "total"));
      var clicked := ReadNat(Member(v.members, "clicked"));
      var reported := ReadNat(Member(v.members, "reported"));
      if d.Some? && d.value.JString? && total.Some? && clicked.Some? && reported.Some? then
        Some(DepartmentStats(d.value.s, total.value, clicked.value, reported.value))
      else None
  }

  function ReadDepartmentArray(items: seq<JsonValue>): Option<seq<DepartmentStats>> {
    if |items| == 0 then Some([])
    else
      match (ReadDepartment(items[0]), ReadDepartmentArray(items[1..]))
      case (Some(g), Some(rest)) => Some([g] + rest)
      case _ => None
  }

  /** Reads a JSON report back into statistics; `None` for any other document. */
  function ReadJsonReport(v: JsonValue): Option<CampaignStats> {
    if !v.JObject? then None
    else
      var m := v.members;
      var total := ReadNat(Member(m, "total_employees"));
      var sent := ReadNat(Member(m, "emails_sent"));
      var clicked := ReadNat(Member(m, "links_clicked"));
      var reported := ReadNat(Member(m, "phishing_reported"));
      var clickRate := ReadRate(Member(m, "click_rate"));
      var reportRate := ReadRate(Member(m, "report_rate"));
      var depts := Member(m, "department_stats");
      if total.None? || sent.None? || clicked.None? || reported.None?
         || clickRate.None? || reportRate.None? || depts.None? || !depts.value.JArray? then None
      else
        match ReadDepartmentArray(depts.value.items)
        case None => None
        case Some(groups) =>
          Some(CampaignStats(total.value, sent.value, clicked.value, reported.value,
                             clickRate.value, reportRate.value, groups))
  }

  lemma DepartmentObjectRoundTrip(g: DepartmentStats)
    ensures ReadDepartment(DepartmentObject(g)) == Some(g)
  {
    var m := DepartmentObject(g).members;
    assert m[0].0 == "department" && m[1].0 == "total" && m[2].0 == "clicked" && m[3].0 == "reported";
    MemberAt(m, 0);
    MemberAt(m, 1);
    MemberAt(m, 2);
    MemberAt(m, 3);
  }

  lemma {:induction false} ReadDepartmentArrayRoundTrip(groups: seq<DepartmentStats>)
    ensures ReadDepartmentArray(DepartmentArray(groups)) == Some(groups)
  {
    if |groups| > 0 {
      ReadDepartmentArrayRoundTrip(groups[1..]);
      DepartmentObjectRoundTrip(groups[0]);
      assert DepartmentArray(groups)[1..] == DepartmentArray(groups[1..]);
      assert [groups[0]] + groups[1..] == groups;
    }
  }

  /** Statistics whose rates are 0 when there are no results, as `get_stats` makes them. */
  predicate ZeroGuarded(st: CampaignStats) {
    st.totalEmployees == 0 ==> st.clickRate == 0.0 && st.reportRate == 0.0
  }

  /** The four counts are found under their keys. */
  lemma JsonCountMembers(st: CampaignStats)
    ensures var m := JsonReport(st).members;
      && Member(m, "total_employees") == Some(JInt(st.totalEmployees))
      && Member(m, "emails_sent") == Some(JInt(st.emailsSent))
      && Member(m, "links_clicked") == Some(JInt(st.linksClicked))
      && Member(m, "phishing_reported") == Some(JInt(st.phishingReported))
  {
    var m := JsonReport(st).members;
    assert m[0].0 == "total_employees" && m[1].0 == "emails_sent" && m[2].0 == "links_clicked";
    assert m[3].0 == "phishing_reported";
    MemberAt(m, 0);
    MemberAt(m, 1);
    MemberAt(m, 2);
    MemberAt(m, 3);
  }

  /** The two rates and the department array are found under their keys. */
  lemma JsonRateMembers(st: CampaignStats)
    ensures var m := JsonReport(st).members;
      && Member(m, "click_rate") == Some(RateValue(st, st.clickRate))
      && Member(m, "report_rate") == Some(RateValue(st, st.reportRate))
      && Member(m, "department_stats") == Some(JArray(DepartmentArray(st.departmentStats)))
  {
    var m := JsonReport(st).members;
    assert m[4].0 == "click_rate" && m[5].0 == "report_rate" && m[6].0 == "department_stats";
    MemberAt(m, 4);
    MemberAt(m, 5);
    MemberAt(m, 6);
  }

  /** The JSON document carries every figure: reading it back gives the statistics,
      the integer 0 of an empty campaign's rates included. */
  lemma JsonRoundTrip(st: CampaignStats)
    requires ZeroGuarded(st)
    ensures ReadJsonReport(JsonReport(st)) == Some(st)
  {
    JsonCountMembers(st);
    JsonRateMembers(st);
    ReadDepartmentArrayRoundTrip(st.departmentStats);
  }

  // export_report

  datatype ReportFile =
    | CsvFile(name: string, rows: seq<seq<Cell>>)
    | JsonFile(name: string, document: JsonValue)

  /** Exports the statistics of campaign `cid` in the format named `format`. */
  function ExportReport(s: Store, cid: string, format: string): (r: Outcome<ReportFile>)
    ensures r.Ok? <==> format == "csv" || format == "json"
    ensures r.Err? ==> r.error == UnsupportedFormat(format)
    ensures r.Ok? ==> r.value.name == ReportFileName(cid, format)
    ensures r.Ok? && format == "csv" ==> r.value.CsvFile? && ReadCsvReport(r.value.rows) == Some(GetStats(s, cid))
    ensures r.Ok? && format == "json" ==> r.value.JsonFile? && ReadJsonReport(r.value.document) == Some(GetStats(s, cid))
  {
    var st := GetStats(s, cid);
    var name := ReportFileName(cid, format);
    CsvRoundTrip(st);
    JsonRoundTrip(st);
    match ParseFormat(format)
    case Ok(Csv) => Ok(CsvFile(name, CsvReport(st)))
    case Ok(Json) => Ok(JsonFile(name, JsonReport(st)))
    case Err(e) => Err(e)
  }
}
