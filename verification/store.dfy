/** The campaign store: the three tables `campaigns`, `employees` and `results`,
    each a sequence of rows in insertion order, with the lookups, the key
    invariant and the employees-results join that the operations share.
 */
module Store {
  import opened Outcomes

  /** A row of `campaigns`. */
  datatype Campaign = Campaign(
    id: string,
    name: string,
    template: string,
    created: string,
    status: string)

  /** The column default for `campaigns.status`. */
  const ActiveStatus: string := "active"

  /** A row of `employees`; `email` is UNIQUE across the whole table. */
  datatype Employee = Employee(
    id: string,
    email: string,
    name: string,
    department: string,
    campaignId: string)

  /** A row of `results`; the three INTEGER 0/1 columns are booleans here and the
      two timestamps are NULL (`None`) until the matching event is recorded. */
  datatype ResultRecord = ResultRecord(
    id: string,
    employeeId: string,
    campaignId: string,
    emailSent: bool,
    linkClicked: bool,
    phishingReported: bool,
    clickedAt: Option<string>,
    reportedAt: Option<string>,
    token: string)

  datatype Store = Store(
    campaigns: seq<Campaign>,
    employees: seq<Employee>,
    results: seq<ResultRecord>)

  const EmptyStore: Store := Store([], [], [])

  // Lookups by key

  predicate CampaignIdUsed(cs: seq<Campaign>, id: string) {
    exists c :: c in cs && c.id == id
  }

  predicate EmployeeIdUsed(es: seq<Employee>, id: string) {
    exists e :: e in es && e.id == id
  }

  predicate EmailUsed(es: seq<Employee>, email: string) {
    exists e :: e in es && e.email == email
  }

  predicate ResultIdUsed(rs: seq<ResultRecord>, id: string) {
    exists r :: r in rs && r.id == id
  }

  predicate TokenUsed(rs: seq<ResultRecord>, token: string) {
    exists r :: r in rs && r.token == token
  }

  /** Some result row points at this employee id (whether or not such an employee exists). */
  predicate EmployeeIdReferenced(rs: seq<ResultRecord>, id: string) {
    exists r :: r in rs && r.employeeId == id
  }

  /** `SELECT ... FROM campaigns WHERE id = ?` followed by `fetchone()`. */
  function FindCampaign(cs: seq<Campaign>, id: string): (r: Option<Campaign>)
    ensures r.None? <==> !CampaignIdUsed(cs, id)
    ensures r.Some? ==> r.value in cs && r.value.id == id
  {
    if |cs| == 0 then None
    else if cs[0].id == id then Some(cs[0])
    else
      assert cs == [cs[0]] + cs[1..];
      FindCampaign(cs[1..], id)
  }

  /** Looking a campaign up after appending a row: earlier rows win, as with `fetchone()`. */
  lemma {:induction false} FindCampaignAppend(cs: seq<Campaign>, c: Campaign, id: string)
    ensures FindCampaign(cs + [c], id) ==
      if CampaignIdUsed(cs, id) then FindCampaign(cs, id)
      else if c.id == id then Some(c)
      else None
  {
    if |cs| == 0 {
      assert cs + [c] == [c];
    } else {
      assert (cs + [c])[1..] == cs[1..] + [c];
      FindCampaignAppend(cs[1..], c, id);
    }
  }

  /** A result row is an orphan when no employee row carries its `employee_id`. */
  predicate IsOrphan(s: Store, r: ResultRecord) {
    !EmployeeIdUsed(s.employees, r.employeeId)
  }

  predicate CampaignKeysDistinct(cs: seq<Campaign>) {
    forall i, j :: 0 <= i < j < |cs| ==> cs[i].id != cs[j].id
  }

  /** `employees.id` is the PRIMARY KEY and `employees.email` is UNIQUE. */
  predicate EmployeeKeysDistinct(es: seq<Employee>) {
    && (forall i, j :: 0 <= i < j < |es| ==> es[i].id != es[j].id)
    && (forall i, j :: 0 <= i < j < |es| ==> es[i].email != es[j].email)
  }

  /** `results.id` is the PRIMARY KEY and `results.token` is UNIQUE. */
  predicate ResultKeysDistinct(rs: seq<ResultRecord>) {
    && (forall i, j :: 0 <= i < j < |rs| ==> rs[i].id != rs[j].id)
    && (forall i, j :: 0 <= i < j < |rs| ==> rs[i].token != rs[j].token)
  }

  /** A result that does point at an employee belongs to that employee's campaign. */
  predicate SameCampaign(es: seq<Employee>, rs: seq<ResultRecord>) {
    forall r, e :: r in rs && e in es && e.id == r.employeeId ==> e.campaignId == r.campaignId
  }

  /** The keys the schema declares hold distinct values, and no result crosses
      campaigns. The schema's foreign keys are deliberately absent: they are never
      switched on, and orphan results are an expected part of the state. */
  predicate Valid(s: Store) {
    && CampaignKeysDistinct(s.campaigns)
    && EmployeeKeysDistinct(s.employees)
    && ResultKeysDistinct(s.results)
    && SameCampaign(s.employees, s.results)
  }

  lemma EmptyStoreValid()
    ensures Valid(EmptyStore)
    ensures forall cid :: Join(EmptyStore.employees, EmptyStore.results, cid) == []
  {
  }

  /** Two result tables that differ only in flags and timestamps. */
  predicate SameKeys(a: seq<ResultRecord>, b: seq<ResultRecord>) {
    && |a| == |b|
    && forall i :: 0 <= i < |a| ==>
      && a[i].id == b[i].id && a[i].token == b[i].token
      && a[i].employeeId == b[i].employeeId && a[i].campaignId == b[i].campaignId
  }

  /** Rewriting flags and timestamps keeps a store valid. */
  lemma SameKeysValid(s: Store, rs: seq<ResultRecord>)
    requires Valid(s)
    requires SameKeys(s.results, rs)
    ensures Valid(Store(s.campaigns, s.employees, rs))
  {
    forall x, e | x in rs && e in s.employees && e.id == x.employeeId
      ensures e.campaignId == x.campaignId
    {
      var k :| 0 <= k < |rs| && rs[k] == x;
      assert s.results[k] in s.results;
    }
  }

  /** Tables with the same keys use the same tokens. */
  lemma SameKeysTokens(a: seq<ResultRecord>, b: seq<ResultRecord>, token: string)
    requires SameKeys(a, b)
    ensures TokenUsed(a, token) <==> TokenUsed(b, token)
  {
    if TokenUsed(a, token) {
      var x :| x in a && x.token == token;
      var k :| 0 <= k < |a| && a[k] == x;
      assert b[k] in b;
    }
    if TokenUsed(b, token) {
      var x :| x in b && x.token == token;
      var k :| 0 <= k < |b| && b[k] == x;
      assert a[k] in a;
    }
  }

  // The rows of one campaign

  /** `... FROM results WHERE campaign_id = ?`. */
  function CampaignResults(rs: seq<ResultRecord>, cid: string): (r: seq<ResultRecord>)
    ensures |r| <= |rs|
    ensures forall x :: x in r <==> x in rs && x.campaignId == cid
    ensures (forall x :: x in rs ==> x.campaignId != cid) ==> r == []
  {
    if |rs| == 0 then []
    else (if rs[0].campaignId == cid then [rs[0]] else []) + CampaignResults(rs[1..], cid)
  }

  lemma {:induction false} CampaignResultsAppend(a: seq<ResultRecord>, b: seq<ResultRecord>, cid: string)
    ensures CampaignResults(a + b, cid) == CampaignResults(a, cid) + CampaignResults(b, cid)
  {
    if |a| == 0 {
      assert a + b == b;
    } else {
      assert (a + b)[1..] == a[1..] + b;
      CampaignResultsAppend(a[1..], b, cid);
    }
  }

  // The join `employees e JOIN results r ON e.id = r.employee_id WHERE e.campaign_id = ?`

  datatype JoinRow = JoinRow(employee: Employee, result: ResultRecord)

  /** The employees of campaign `cid` that result `r` points at. */
  function Partners(es: seq<Employee>, r: ResultRecord, cid: string): (m: seq<Employee>)
    ensures forall e :: e in m <==> e in es && e.id == r.employeeId && e.campaignId == cid
    ensures !EmployeeIdUsed(es, r.employeeId) ==> m == []
  {
    if |es| == 0 then []
    else
      var rest := Partners(es[1..], r, cid);
      assert es == [es[0]] + es[1..];
      if es[0].id == r.employeeId && es[0].campaignId == cid then [es[0]] + rest else rest
  }

  function Pair(es: seq<Employee>, r: ResultRecord): seq<JoinRow> {
    if |es| == 0 then [] else [JoinRow(es[0], r)] + Pair(es[1..], r)
  }

  /** The joined rows, taking the results in table order. */
  function Join(es: seq<Employee>, rs: seq<ResultRecord>, cid: string): (j: seq<JoinRow>)
    ensures forall row :: row in j <==>
      row.result in rs && row.employee in es && row.employee.id == row.result.employeeId && row.employee.campaignId == cid
  {
    if |rs| == 0 then []
    else
      var head := Pair(Partners(es, rs[0], cid), rs[0]);
      PairMembers(Partners(es, rs[0], cid), rs[0]);
      head + Join(es, rs[1..], cid)
  }

  lemma {:induction false} PairMembers(es: seq<Employee>, r: ResultRecord)
    ensures |Pair(es, r)| == |es|
    ensures forall row :: row in Pair(es, r) <==> row.result == r && row.employee in es
  {
    if |es| > 0 {
      PairMembers(es[1..], r);
    }
  }

  lemma {:induction false} JoinAppend(es: seq<Employee>, a: seq<ResultRecord>, b: seq<ResultRecord>, cid: string)
    ensures Join(es, a + b, cid) == Join(es, a, cid) + Join(es, b, cid)
  {
    if |a| == 0 {
      assert a + b == b;
    } else {
      assert (a + b)[1..] == a[1..] + b;
      JoinAppend(es, a[1..], b, cid);
    }
  }

  /** Orphan results take no part in the join. */
  lemma {:induction false} JoinOfOrphans(es: seq<Employee>, rs: seq<ResultRecord>, cid: string)
    requires forall i :: 0 <= i < |rs| ==> !EmployeeIdUsed(es, rs[i].employeeId)
    ensures Join(es, rs, cid) == []
  {
    if |rs| > 0 {
      JoinOfOrphans(es, rs[1..], cid);
    }
  }

  /** Where a result joined to employee `e` sits among the joined rows. */
  lemma JoinedRowIndex(es: seq<Employee>, rs: seq<ResultRecord>, cid: string, e: Employee, i: nat) returns (k: nat)
    requires i < |rs| && e in es && e.id == rs[i].employeeId && e.campaignId == cid
    ensures k < |Join(es, rs, cid)| && Join(es, rs, cid)[k] == JoinRow(e, rs[i])
  {
    assert rs[i] in rs;
    assert JoinRow(e, rs[i]) in Join(es, rs, cid);
    k :| 0 <= k < |Join(es, rs, cid)| && Join(es, rs, cid)[k] == JoinRow(e, rs[i]);
  }

  /** With distinct employee ids a result meets at most one employee. */
  lemma {:induction false} PartnersAtMostOne(es: seq<Employee>, r: ResultRecord, cid: string)
    requires forall i, j :: 0 <= i < j < |es| ==> es[i].id != es[j].id
    ensures |Partners(es, r, cid)| <= 1
  {
    if |es| > 0 {
      PartnersAtMostOne(es[1..], r, cid);
    }
  }

  /** No two joined rows carry the same result token. */
  predicate JoinedTokensDistinct(rows: seq<JoinRow>) {
    forall a, b :: 0 <= a < b < |rows| ==> rows[a].result.token != rows[b].result.token
  }

  lemma JoinedTokensDistinctAppend(h: seq<JoinRow>, r: seq<JoinRow>)
    requires JoinedTokensDistinct(h) && JoinedTokensDistinct(r)
    requires forall x, y :: x in h && y in r ==> x.result.token != y.result.token
    ensures JoinedTokensDistinct(h + r)
  {
    var j := h + r;
    forall a, b | 0 <= a < b < |j| ensures j[a].result.token != j[b].result.token {
      if b < |h| {
        assert j[a] == h[a] && j[b] == h[b];
      } else if a < |h| {
        assert j[a] == h[a] && h[a] in h;
        assert j[b] == r[b - |h|] && r[b - |h|] in r;
      } else {
        assert j[a] == r[a - |h|] && j[b] == r[b - |h|];
      }
    }
  }

  /** The rest of a token-distinct table shares no token with its first row. */
  lemma ResultKeysDistinctTail(rs: seq<ResultRecord>)
    requires |rs| > 0 && ResultKeysDistinct(rs)
    ensures ResultKeysDistinct(rs[1..])
    ensures forall x :: x in rs[1..] ==> x.token != rs[0].token
  {
    assert forall k :: 0 <= k < |rs[1..]| ==> rs[1..][k] == rs[k + 1];
  }

  /** With distinct employee ids and distinct tokens, no two joined rows carry the
      same token: each result is joined at most once. */
  lemma {:induction false} JoinTokensDistinct(es: seq<Employee>, rs: seq<ResultRecord>, cid: string)
    requires EmployeeKeysDistinct(es)
    requires ResultKeysDistinct(rs)
    ensures JoinedTokensDistinct(Join(es, rs, cid))
  {
    if |rs| > 0 {
      var m := Partners(es, rs[0], cid);
      ResultKeysDistinctTail(rs);
      JoinTokensDistinct(es, rs[1..], cid);
      PartnersAtMostOne(es, rs[0], cid);
      PairMembers(m, rs[0]);
      JoinedTokensDistinctAppend(Pair(m, rs[0]), Join(es, rs[1..], cid));
    }
  }

  /** In a valid store a result joins only employees of its own campaign, and
      joins at most one of them. */
  lemma {:induction false} PartnersInValid(s: Store, r: ResultRecord, cid: string)
    requires Valid(s)
    requires r in s.results
    ensures |Partners(s.employees, r, cid)| <= 1
    ensures r.campaignId != cid ==> Partners(s.employees, r, cid) == []
  {
    PartnersAtMostOne(s.employees, r, cid);
    var m := Partners(s.employees, r, cid);
    if |m| > 0 {
      assert m[0] in m;
    }
  }

  /** In a valid store the join of a campaign has at most as many rows as the
      campaign has results: every joined row is a distinct result of that campaign. */
  lemma {:induction false} JoinBoundedByResults(s: Store, cid: string)
    requires Valid(s)
    ensures |Join(s.employees, s.results, cid)| <= |CampaignResults(s.results, cid)|
  {
    JoinBoundedFrom(s, s.results, cid);
  }

  lemma {:induction false} JoinBoundedFrom(s: Store, rs: seq<ResultRecord>, cid: string)
    requires Valid(s)
    requires forall x :: x in rs ==> x in s.results
    ensures |Join(s.employees, rs, cid)| <= |CampaignResults(rs, cid)|
  {
    if |rs| > 0 {
      JoinBoundedFrom(s, rs[1..], cid);
      PartnersInValid(s, rs[0], cid);
      PairMembers(Partners(s.employees, rs[0], cid), rs[0]);
    }
  }
}
