/** The top-level application state: the list of campaigns and the current
    one, with the loading, creation and deletion handlers. */
module App {
  import opened Basics
  import opened Database

  datatype AppState = AppState(campaigns: seq<CampaignRow>, current: Option<CampaignRow>)

  /** The current campaign, when there is one, is in the list. */
  predicate Consistent(s: AppState) {
    s.current.Some? ==> s.current.value in s.campaigns
  }

  /** No two campaigns share an id (ids come from the campaigns table). */
  predicate DistinctIds(cs: seq<CampaignRow>) {
    forall i, j :: 0 <= i < j < |cs| ==> cs[i].id != cs[j].id
  }

  /** The application before anything is loaded. */
  const Initial: AppState := AppState([], None)

  /** `loadCampaigns`: a loaded list replaces the campaigns and its first
      element becomes current; an empty list leaves the selection alone and
      a failed load changes nothing. */
  function LoadCampaigns(s: AppState, loaded: Result<seq<CampaignRow>, string>): (r: AppState)
    ensures loaded.Failure? ==> r == s
    ensures loaded.Success? ==> r.campaigns == loaded.value
    ensures loaded.Success? && |loaded.value| > 0 ==> r.current == Some(loaded.value[0])
    ensures loaded.Success? && |loaded.value| == 0 ==> r.current == s.current
  {
    match loaded
    case Failure(_) => s
    case Success(cs) => AppState(cs, if |cs| > 0 then Some(cs[0]) else s.current)
  }

  /** `handleCampaignCreated`: the new campaign is appended and current. */
  function CampaignCreated(s: AppState, c: CampaignRow): (r: AppState)
    ensures |r.campaigns| == |s.campaigns| + 1 && r.campaigns[..|s.campaigns|] == s.campaigns
    ensures r.campaigns[|s.campaigns|] == c && r.current == Some(c)
  {
    AppState(s.campaigns + [c], Some(c))
  }

  /** `filter(c => c.id !== id)`. */
  function RemoveId(cs: seq<CampaignRow>, id: nat): (r: seq<CampaignRow>)
    ensures forall c :: c in r ==> c.id != id
    ensures forall c: CampaignRow :: c.id != id ==> multiset(r)[c] == multiset(cs)[c]
    ensures |r| <= |cs|
  {
    if |cs| == 0 then []
    else
      assert cs == [cs[0]] + cs[1..];
      if cs[0].id == id then RemoveId(cs[1..], id) else [cs[0]] + RemoveId(cs[1..], id)
  }

  /** The first survivor of a removal is the first campaign with another id. */
  lemma {:induction false} FirstSurvivor(cs: seq<CampaignRow>, id: nat)
    requires |RemoveId(cs, id)| > 0
    ensures exists k :: 0 <= k < |cs| && cs[k] == RemoveId(cs, id)[0] && forall j :: 0 <= j < k ==> cs[j].id == id
    decreases |cs|
  {
    var tail := cs[1..];
    if cs[0].id == id {
      assert RemoveId(cs, id) == RemoveId(tail, id);
      FirstSurvivor(tail, id);
      var k :| 0 <= k < |tail| && tail[k] == RemoveId(tail, id)[0] && forall j :: 0 <= j < k ==> tail[j].id == id;
      assert cs[k + 1] == tail[k];
      forall j | 0 <= j < k + 1 ensures cs[j].id == id {
        if j > 0 {
          assert cs[j] == tail[j - 1];
        }
      }
    } else {
      assert RemoveId(cs, id) == [cs[0]] + RemoveId(tail, id);
    }
  }

  /** With distinct ids a removal drops at most one campaign. */
  lemma {:induction false} RemoveDistinctId(cs: seq<CampaignRow>, id: nat)
    requires DistinctIds(cs)
    ensures |RemoveId(cs, id)| >= |cs| - 1
    decreases |cs|
  {
    if |cs| > 0 {
      assert DistinctIds(cs[1..]) by {
        forall i, j | 0 <= i < j < |cs[1..]| ensures cs[1..][i].id != cs[1..][j].id {
          assert cs[1..][i] == cs[i + 1] && cs[1..][j] == cs[j + 1];
        }
      }
      RemoveDistinctId(cs[1..], id);
      if cs[0].id == id {
        assert forall j :: 0 <= j < |cs[1..]| ==> cs[1..][j].id != id by {
          forall j | 0 <= j < |cs[1..]| ensures cs[1..][j].id != id {
            assert cs[1..][j] == cs[j + 1];
          }
        }
        RemoveNothing(cs[1..], id);
      }
    }
  }

  /** Removing an id nobody has keeps every campaign. */
  lemma {:induction false} RemoveNothing(cs: seq<CampaignRow>, id: nat)
    requires forall j :: 0 <= j < |cs| ==> cs[j].id != id
    ensures RemoveId(cs, id) == cs
    decreases |cs|
  {
    if |cs| > 0 {
      var tail := cs[1..];
      assert forall j :: 0 <= j < |tail| ==> tail[j] == cs[j + 1];
      RemoveNothing(tail, id);
      assert cs == [cs[0]] + tail;
    }
  }

  /** `handleCampaignDelete`: every campaign with that id goes; if the
      current campaign was one of them, the first remaining campaign
      becomes current, or none when no campaign is left; otherwise the
      selection stays. */
  function CampaignDelete(s: AppState, id: nat): (r: AppState)
    ensures forall c :: c in r.campaigns ==> c.id != id
    ensures forall c: CampaignRow :: c.id != id ==> multiset(r.campaigns)[c] == multiset(s.campaigns)[c]
    ensures s.current.Some? && s.current.value.id == id ==>
      && (r.current.Some? <==> |r.campaigns| > 0)
      && (r.current.Some? ==> r.current.value == r.campaigns[0])
    ensures !(s.current.Some? && s.current.value.id == id) ==> r.current == s.current
  {
    var remaining := RemoveId(s.campaigns, id);
    if s.current.Some? && s.current.value.id == id then
      AppState(remaining, if |remaining| > 0 then Some(remaining[0]) else None)
    else AppState(remaining, s.current)
  }

  /** Every handler keeps the current campaign in the list. */
  lemma HandlersKeepConsistent(s: AppState, c: CampaignRow, id: nat, cs: seq<CampaignRow>)
    requires Consistent(s)
    ensures Consistent(CampaignCreated(s, c))
    ensures Consistent(CampaignDelete(s, id))
    ensures Consistent(LoadCampaigns(Initial, Success(cs)))
  {
    var r := CampaignDelete(s, id);
    if r.current.Some? && !(s.current.Some? && s.current.value.id == id) {
      assert multiset(r.campaigns)[s.current.value] == multiset(s.campaigns)[s.current.value];
    }
  }
}
