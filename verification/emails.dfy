/** `generate_emails`: one e-mail per joined (employee, result) row of a campaign,
    its body the template body with the tracking link in place of `{link}`, its
    file name derived from the address; then `email_sent` is set on each of those
    rows' tokens. The files themselves are values here: a path and the text
    that would be written there.
 */
module Emails {
  import opened Outcomes
  import opened Text
  import opened Templates
  import opened Store

  /** The tracking server every generated link points at. */
  const TrackingBase: string := "http://localhost:8080/track/"

  function TrackingLink(token: string): string {
    TrackingBase + token
  }

  /** The token can be read back from its tracking link. */
  lemma TrackingLinkInjective(a: string, b: string)
    requires TrackingLink(a) == TrackingLink(b)
    ensures a == b
  {
    assert a == TrackingLink(a)[|TrackingBase|..];
    assert b == TrackingLink(b)[|TrackingBase|..];
  }

  /** `{output_dir}/{email.replace('@', '_')}.txt`. */
  function EmailFileName(outputDir: string, email: string): (path: string)
    ensures |path| == |outputDir| + |email| + 5
    ensures path[..|outputDir|] == outputDir && path[|outputDir|] == '/'
    ensures path[|outputDir| + 1 + |email|..] == ".txt"
    ensures path[|outputDir| + 1..|outputDir| + 1 + |email|] == ReplaceChar(email, '@', '_')
    ensures '@' !in path[|outputDir| + 1..|outputDir| + 1 + |email|]
  {
    var p := outputDir + "/" + ReplaceChar(email, '@', '_') + ".txt";
    assert p[|outputDir| + 1..|outputDir| + 1 + |email|] == ReplaceChar(email, '@', '_');
    p
  }

  /** Addresses without `_` get distinct file names in the same directory. */
  lemma EmailFileNameInjective(outputDir: string, a: string, b: string)
    requires '_' !in a && '_' !in b
    requires EmailFileName(outputDir, a) == EmailFileName(outputDir, b)
    ensures a == b
  {
    var n := |outputDir| + 1;
    assert |a| == |b|;
    var ra := ReplaceChar(a, '@', '_');
    var rb := ReplaceChar(b, '@', '_');
    assert ra == rb by {
      assert ra == EmailFileName(outputDir, a)[n..n + |a|];
      assert rb == EmailFileName(outputDir, b)[n..n + |b|];
    }
    forall i | 0 <= i < |a| ensures a[i] == b[i] {
      assert ra[i] == rb[i];
      assert a[i] != '_' && b[i] != '_' by {
        assert a[i] in a && b[i] in b;
      }
    }
  }

  /** Two different addresses that differ only in `@` versus `_` share a file, so
      the later e-mail overwrites the earlier one. */
  lemma EmailFileNameCollision(outputDir: string)
    ensures "a@b.ru" != "a_b.ru"
    ensures EmailFileName(outputDir, "a@b.ru") == EmailFileName(outputDir, "a_b.ru")
  {
    assert "a@b.ru"[1] != "a_b.ru"[1];
    assert ReplaceChar("a@b.ru", '@', '_') == ReplaceChar("a_b.ru", '@', '_');
  }

  /** A generated e-mail: the file it goes to and the fields written into it. */
  datatype Email = Email(
    path: string,
    recipient: string,
    subject: string,
    sender: string,
    body: string,
    campaignName: string,
    token: string)

  /** The e-mail for one joined row. */
  function Compose(t: EmailTemplate, campaignName: string, outputDir: string, row: JoinRow): Email {
    var token := row.result.token;
    Email(EmailFileName(outputDir, row.employee.email), row.employee.email, t.subject, t.sender,
          ReplaceLink(t.body, TrackingLink(token)), campaignName, token)
  }

  /** The text written to the e-mail's file. */
  function Document(m: Email): string {
    "Кому: " + m.recipient + "\n"
    + "Тема: " + m.subject + "\n"
    + "От: " + m.sender + "\n"
    + "\n" + m.body + "\n"
    + "\n---\n"
    + "Тестовое письмо для кампании: " + m.campaignName + "\n"
    + "Токен отслеживания: " + m.token + "\n"
  }

  /** The directory after writing the e-mails in order: a file written twice
      keeps the text of the last write. */
  function WrittenFiles(ms: seq<Email>): (files: map<string, string>)
    ensures files.Keys == set m | m in ms :: m.path
  {
    if |ms| == 0 then map[]
    else
      var last := ms[|ms| - 1];
      var before := WrittenFiles(ms[..|ms| - 1]);
      assert ms == ms[..|ms| - 1] + [last];
      before[last.path := Document(last)]
  }

  /** Each file holds the text of the last e-mail written to its path. */
  lemma {:induction false} WrittenFilesLastWins(ms: seq<Email>, i: nat)
    requires i < |ms|
    requires forall j :: i < j < |ms| ==> ms[j].path != ms[i].path
    ensures ms[i].path in WrittenFiles(ms)
    ensures WrittenFiles(ms)[ms[i].path] == Document(ms[i])
  {
    if i < |ms| - 1 {
      WrittenFilesLastWins(ms[..|ms| - 1], i);
    }
  }

  // Marking the generated e-mails as sent

  function Sent(r: ResultRecord): ResultRecord {
    r.(emailSent := true)
  }

  /** `UPDATE results SET email_sent = 1 WHERE token = ?`. */
  function MarkToken(rs: seq<ResultRecord>, token: string): (out: seq<ResultRecord>)
    ensures |out| == |rs|
    ensures forall i :: 0 <= i < |rs| ==> out[i] == if rs[i].token == token then Sent(rs[i]) else rs[i]
  {
    if |rs| == 0 then []
    else [if rs[0].token == token then Sent(rs[0]) else rs[0]] + MarkToken(rs[1..], token)
  }

  /** The tokens of a list of joined rows. */
  function JoinedTokens(rows: seq<JoinRow>): (ts: set<string>)
    ensures forall t :: t in ts <==> exists k :: 0 <= k < |rows| && rows[k].result.token == t
  {
    set k | 0 <= k < |rows| :: rows[k].result.token
  }

  /** One UPDATE per generated e-mail, in order. The result is the same as one
      update of every row whose token is among the e-mails' tokens. */
  function MarkSentAll(rs: seq<ResultRecord>, rows: seq<JoinRow>): (out: seq<ResultRecord>)
    ensures |out| == |rs|
    ensures forall i :: 0 <= i < |rs| ==>
      out[i] == if rs[i].token in JoinedTokens(rows) then Sent(rs[i]) else rs[i]
    decreases |rows|
  {
    if |rows| == 0 then rs
    else
      var once := MarkToken(rs, rows[0].result.token);
      var out := MarkSentAll(once, rows[1..]);
      assert forall t :: t in JoinedTokens(rows) <==> t == rows[0].result.token || t in JoinedTokens(rows[1..]) by {
        forall t | t in JoinedTokens(rows[1..]) ensures t in JoinedTokens(rows) {
          var k :| 0 <= k < |rows[1..]| && rows[1..][k].result.token == t;
          assert rows[k + 1].result.token == t;
        }
        forall t | t in JoinedTokens(rows) && t != rows[0].result.token ensures t in JoinedTokens(rows[1..]) {
          var k :| 0 <= k < |rows| && rows[k].result.token == t;
          assert rows[1..][k - 1].result.token == t;
        }
      }
      out
  }

  /** Marking changes flags only: ids, tokens and references stay in place. */
  lemma MarkSentAllKeepsKeys(rs: seq<ResultRecord>, rows: seq<JoinRow>)
    ensures SameKeys(rs, MarkSentAll(rs, rows))
  {
  }

  // generate_emails

  /** The e-mails for the joined rows, one per row and in the same order. */
  function ComposeAll(t: EmailTemplate, campaignName: string, outputDir: string, rows: seq<JoinRow>): (ms: seq<Email>)
    ensures |ms| == |rows|
    ensures forall i :: 0 <= i < |rows| ==>
      && ms[i].recipient == rows[i].employee.email
      && ms[i].token == rows[i].result.token
      && ms[i].path == EmailFileName(outputDir, rows[i].employee.email)
      && ms[i].subject == t.subject && ms[i].sender == t.sender
      && ms[i].campaignName == campaignName
      && ms[i].body == ReplaceLink(t.body, TrackingLink(rows[i].result.token))
  {
    seq(|rows|, i requires 0 <= i < |rows| => Compose(t, campaignName, outputDir, rows[i]))
  }

  /** Every composed e-mail carries the token of one of the rows. */
  lemma ComposeAllTokens(t: EmailTemplate, campaignName: string, outputDir: string, rows: seq<JoinRow>)
    ensures forall m :: m in ComposeAll(t, campaignName, outputDir, rows) ==> m.token in JoinedTokens(rows)
  {
    var ms := ComposeAll(t, campaignName, outputDir, rows);
    forall m | m in ms ensures m.token in JoinedTokens(rows) {
      var k :| 0 <= k < |ms| && ms[k] == m;
      assert rows[k].result.token == m.token;
    }
  }

  datatype Generation = Generation(emails: seq<Email>, store: Store)

  /** Campaign `cid` exists and its template is still in the catalog. */
  predicate Generates(s: Store, cid: string) {
    CampaignIdUsed(s.campaigns, cid) && FindCampaign(s.campaigns, cid).value.template in Catalog
  }

  /** Generates the e-mails of campaign `cid` into directory `outputDir`. */
  function GenerateEmails(s: Store, cid: string, outputDir: string): (r: Outcome<Generation>)
    ensures !CampaignIdUsed(s.campaigns, cid) ==> r == Err(CampaignNotFound)
    ensures CampaignIdUsed(s.campaigns, cid) && FindCampaign(s.campaigns, cid).value.template !in Catalog ==>
      r == Err(TemplateNotFound(FindCampaign(s.campaigns, cid).value.template))
    ensures r.Ok? <==> Generates(s, cid)
    ensures r.Ok? ==>
      var c := FindCampaign(s.campaigns, cid).value;
      r.value.emails == ComposeAll(Catalog[c.template], c.name, outputDir, Join(s.employees, s.results, cid))
    ensures r.Ok? ==>
      && r.value.store.campaigns == s.campaigns && r.value.store.employees == s.employees
      && r.value.store.results == MarkSentAll(s.results, Join(s.employees, s.results, cid))
  {
    match FindCampaign(s.campaigns, cid)
    case None => Err(CampaignNotFound)
    case Some(c) =>
      if c.template !in Catalog then Err(TemplateNotFound(c.template))
      else
        var rows := Join(s.employees, s.results, cid);
        Ok(Generation(ComposeAll(Catalog[c.template], c.name, outputDir, rows),
                      Store(s.campaigns, s.employees, MarkSentAll(s.results, rows))))
  }

  /** Every generated body is its catalog template with the tracking link of the
      e-mail's own token in the single placeholder's place. */
  lemma GeneratedBodies(s: Store, cid: string, outputDir: string, i: nat)
    requires Generates(s, cid)
    requires i < |GenerateEmails(s, cid, outputDir).value.emails|
    ensures var t := Catalog[FindCampaign(s.campaigns, cid).value.template];
      var m := GenerateEmails(s, cid, outputDir).value.emails[i];
      exists head, tail ::
        && '{' !in head && '{' !in tail
        && t.body == head + Placeholder + tail
        && m.body == head + TrackingLink(m.token) + tail
  {
    var key := FindCampaign(s.campaigns, cid).value.template;
    var m := GenerateEmails(s, cid, outputDir).value.emails[i];
    CatalogBodyRendering(key, TrackingLink(m.token));
  }

  /** In a valid store an orphan's token is the token of no joined row. */
  lemma OrphanTokenNotJoined(s: Store, cid: string, x: ResultRecord)
    requires Valid(s)
    requires x in s.results && IsOrphan(s, x)
    ensures x.token !in JoinedTokens(Join(s.employees, s.results, cid))
  {
  }

  /** In a valid store an orphan result gets no e-mail and its row is left as it was. */
  lemma GenerateEmailsSkipsOrphans(s: Store, cid: string, outputDir: string, i: nat)
    requires Valid(s)
    requires Generates(s, cid)
    requires i < |s.results| && IsOrphan(s, s.results[i])
    ensures var g := GenerateEmails(s, cid, outputDir).value;
      && g.store.results[i] == s.results[i]
      && forall m :: m in g.emails ==> m.token != s.results[i].token
  {
    var c := FindCampaign(s.campaigns, cid).value;
    var rows := Join(s.employees, s.results, cid);
    OrphanTokenNotJoined(s, cid, s.results[i]);
    ComposeAllTokens(Catalog[c.template], c.name, outputDir, rows);
  }

  /** Every result joined to an employee of the campaign ends up marked as sent,
      and gets an e-mail addressed to that employee. */
  lemma GenerateEmailsMarksJoined(s: Store, cid: string, outputDir: string, i: nat, e: Employee)
    requires Generates(s, cid)
    requires i < |s.results|
    requires e in s.employees && e.id == s.results[i].employeeId && e.campaignId == cid
    ensures var g := GenerateEmails(s, cid, outputDir).value;
      && g.store.results[i].emailSent
      && exists m :: m in g.emails && m.recipient == e.email && m.token == s.results[i].token
  {
    var k := JoinedRowIndex(s.employees, s.results, cid, e, i);
    var g := GenerateEmails(s, cid, outputDir).value;
    assert s.results[i].token in JoinedTokens(Join(s.employees, s.results, cid));
    assert g.emails[k] in g.emails;
  }

  /** In a valid store no two generated e-mails carry the same token, so every
      tracking link sent out identifies exactly one result. */
  lemma GeneratedLinksDistinct(s: Store, cid: string, outputDir: string)
    requires Valid(s)
    requires Generates(s, cid)
    ensures var ms := GenerateEmails(s, cid, outputDir).value.emails;
      forall a, b :: 0 <= a < b < |ms| ==>
        ms[a].token != ms[b].token && TrackingLink(ms[a].token) != TrackingLink(ms[b].token)
  {
    var ms := GenerateEmails(s, cid, outputDir).value.emails;
    var rows := Join(s.employees, s.results, cid);
    JoinTokensDistinct(s.employees, s.results, cid);
    forall a, b | 0 <= a < b < |ms|
      ensures ms[a].token != ms[b].token && TrackingLink(ms[a].token) != TrackingLink(ms[b].token)
    {
      assert ms[a].token == rows[a].result.token && ms[b].token == rows[b].result.token;
      if TrackingLink(ms[a].token) == TrackingLink(ms[b].token) {
        TrackingLinkInjective(ms[a].token, ms[b].token);
      }
    }
  }

  /** There are never more e-mails than results in the campaign. */
  lemma GenerateEmailsBounded(s: Store, cid: string, outputDir: string)
    requires Valid(s)
    requires Generates(s, cid)
    ensures |GenerateEmails(s, cid, outputDir).value.emails| <= |CampaignResults(s.results, cid)|
  {
    JoinBoundedByResults(s, cid);
  }

  /** Marking e-mails as sent changes no key, so the store stays valid. */
  lemma GenerateEmailsPreservesValid(s: Store, cid: string, outputDir: string)
    requires Valid(s)
    requires Generates(s, cid)
    ensures Valid(GenerateEmails(s, cid, outputDir).value.store)
  {
    var rows := Join(s.employees, s.results, cid);
    MarkSentAllKeepsKeys(s.results, rows);
    SameKeysValid(s, MarkSentAll(s.results, rows));
  }
}
