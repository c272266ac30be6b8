/** `create_campaign`: check the template name, then insert one campaign row. */
module Campaigns {
  import opened Outcomes
  import opened Store
  import opened Templates

  /** Creates campaign `id` (the caller's fresh uuid) named `name` for template
      `template`, stamped `now`. An unknown template fails before any write; an id
      already in the table violates the PRIMARY KEY and rolls back. */
  function CreateCampaign(s: Store, name: string, template: string, id: string, now: string): (r: Outcome<Store>)
    ensures r.Ok? <==> template in Catalog && !CampaignIdUsed(s.campaigns, id)
    ensures template !in Catalog ==> r == Err(UnknownTemplate(template))
    ensures template in Catalog && CampaignIdUsed(s.campaigns, id) ==> r == Err(DuplicateKey("campaigns"))
    ensures r.Ok? ==>
      && r.value.employees == s.employees
      && r.value.results == s.results
      && |r.value.campaigns| == |s.campaigns| + 1
      && r.value.campaigns[..|s.campaigns|] == s.campaigns
      && FindCampaign(r.value.campaigns, id) == Some(Campaign(id, name, template, now, ActiveStatus))
  {
    if template !in Catalog then Err(UnknownTemplate(template))
    else if CampaignIdUsed(s.campaigns, id) then Err(DuplicateKey("campaigns"))
    else
      var c := Campaign(id, name, template, now, ActiveStatus);
      FindCampaignAppend(s.campaigns, c, id);
      assert (s.campaigns + [c])[..|s.campaigns|] == s.campaigns;
      Ok(Store(s.campaigns + [c], s.employees, s.results))
  }

  /** Creating a campaign keeps the store's keys distinct and its results consistent. */
  lemma CreateCampaignPreservesValid(s: Store, name: string, template: string, id: string, now: string)
    requires Valid(s)
    ensures CreateCampaign(s, name, template, id, now).Ok? ==> Valid(CreateCampaign(s, name, template, id, now).value)
  {
    var r := CreateCampaign(s, name, template, id, now);
    if r.Ok? {
      var cs := r.value.campaigns;
      forall i, j | 0 <= i < j < |cs|
        ensures cs[i].id != cs[j].id
      {
        if j == |s.campaigns| {
          assert cs[i] == s.campaigns[i];
        }
      }
    }
  }
}
