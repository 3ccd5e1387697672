/** The dashboard's decisions: the last-campaign guard on deletion, the
    filter object it sends, automatic selection of the first post, and the
    stored settings with their defaults. */
module Dashboard {
  import opened Basics
  import opened Database
  import App
  import ApiClient
  import RedditRoutes
  import Sorting

  // -------------------------------------------------------------- deletion

  /** How a delete request ends. */
  datatype DeleteOutcome = RefusedLast | Cancelled | DeleteFailed | Deleted

  /** `handleDeleteCampaign`: refused while exactly one campaign exists;
      otherwise it needs the user's confirmation and a successful delete
      call (`deleteSucceeded`), after which the app removes the campaign. */
  function DeleteCampaign(s: App.AppState, target: CampaignRow, confirmed: bool, deleteSucceeded: bool)
    : (r: (App.AppState, DeleteOutcome))
    ensures r.1 == RefusedLast <==> |s.campaigns| == 1
    ensures r.1 == Deleted <==> |s.campaigns| != 1 && confirmed && deleteSucceeded
    ensures r.1 != Deleted ==> r.0 == s
    ensures r.1 == Deleted ==> r.0 == App.CampaignDelete(s, target.id)
  {
    if |s.campaigns| == 1 then (s, RefusedLast)
    else if !confirmed then (s, Cancelled)
    else if !deleteSucceeded then (s, DeleteFailed)
    else (App.CampaignDelete(s, target.id), Deleted)
  }

  /** Thanks to the guard, deleting from the dashboard never leaves the app
      without a current campaign when it had one. */
  lemma DeletionKeepsASelection(s: App.AppState, target: CampaignRow, confirmed: bool, deleteSucceeded: bool)
    requires App.Consistent(s) && App.DistinctIds(s.campaigns) && s.current.Some?
    ensures DeleteCampaign(s, target, confirmed, deleteSucceeded).0.current.Some?
  {
    var r := DeleteCampaign(s, target, confirmed, deleteSucceeded);
    if r.1 == Deleted && s.current.value.id == target.id {
      assert |s.campaigns| >= 2 by {
        assert s.current.value in s.campaigns;
      }
      App.RemoveDistinctId(s.campaigns, target.id);
    }
  }

  // --------------------------------------------------------------- filters

  /** The filters `loadPosts` sends: the relevance always, the subreddit only
      when one is chosen. */
  function Filters(relevanceFilter: int, subredditFilter: string): (f: ApiClient.PostFilters)
    ensures f.minRelevance == Some(relevanceFilter)
    ensures f.subreddit.Some? <==> subredditFilter != ""
    ensures f.subreddit.Some? ==> f.subreddit.value == subredditFilter
  {
    ApiClient.PostFilters(Some(relevanceFilter), if subredditFilter != "" then Some(subredditFilter) else None)
  }

  /** The listing for the dashboard's filters holds the posts of the
      campaign at or above the slider's value, restricted to the chosen
      subreddit when there is one. */
  lemma FiltersMeaning(rows: seq<PostRow>, campaignId: nat, relevanceFilter: int, subredditFilter: string)
    ensures var f := Filters(relevanceFilter, subredditFilter);
      forall p :: p in RedditRoutes.ListPosts(rows, campaignId, f.minRelevance, f.subreddit) <==>
        && p in rows
        && p.campaignId == Some(campaignId)
        && p.relevanceScore >= relevanceFilter
        && (subredditFilter != "" ==> p.subreddit == subredditFilter)
  {
    var f := Filters(relevanceFilter, subredditFilter);
    assert f.minRelevance.GetOr(0) == relevanceFilter;
  }

  /** The listing the dashboard receives over the query string is the one
      for its filters. */
  lemma DashboardListing(rows: seq<PostRow>, campaignId: nat, relevanceFilter: int, subredditFilter: string)
    ensures var ps := ApiClient.ServerQuery(ApiClient.PostsEndpoint(campaignId, Filters(relevanceFilter, subredditFilter)));
      forall p :: p in RedditRoutes.ListPosts(rows, campaignId, ApiClient.RouteMinRelevance(ps), ApiClient.Lookup(ps, "subreddit")) <==>
        && p in rows
        && p.campaignId == Some(campaignId)
        && p.relevanceScore >= relevanceFilter
        && (subredditFilter != "" ==> p.subreddit == subredditFilter)
  {
    ApiClient.ClientAndServerAgree(rows, campaignId, Filters(relevanceFilter, subredditFilter));
    FiltersMeaning(rows, campaignId, relevanceFilter, subredditFilter);
  }

  // ------------------------------------------------------------ posts view

  /** The part of the dashboard a load updates. */
  datatype PostsView = PostsView(posts: seq<PostRow>, selected: Option<PostRow>, loading: bool)

  /** `loadPosts` run by a closure that sees `seen` as `selectedPost` (the
      value of the render that created it) while its state updates apply to
      the current view `v`: a successful load replaces the posts and, when
      `seen` is empty, selects the first one; a failed load keeps both;
      loading ends either way. */
  function LoadPosts(seen: Option<PostRow>, v: PostsView, loaded: Result<seq<PostRow>, string>): (r: PostsView)
    ensures !r.loading
    ensures loaded.Failure? ==> r.posts == v.posts && r.selected == v.selected
    ensures loaded.Success? ==> r.posts == loaded.value
    ensures seen.Some? ==> r.selected == v.selected
    ensures seen.None? && loaded.Success? && |loaded.value| > 0 ==> r.selected == Some(loaded.value[0])
    ensures r.selected != v.selected ==> seen.None? && loaded.Success? && |loaded.value| > 0
  {
    match loaded
    case Failure(_) => v.(loading := false)
    case Success(posts) =>
      PostsView(posts, if seen.None? && |posts| > 0 then Some(posts[0]) else v.selected, false)
  }

  /** The dashboard between runs of its effect: the view, and the
      `selectedPost` the 30-second interval's `loadPosts` closure captured
      when the effect last ran. */
  datatype Session = Session(view: PostsView, captured: Option<PostRow>)

  /** The effect, on mount and whenever the campaign or a filter changes:
      it loads at once with a fresh closure, and the new interval keeps
      that closure, with the selection of that moment. */
  function RunEffect(s: Session, loaded: Result<seq<PostRow>, string>): (r: Session)
    ensures r.captured == s.view.selected
    ensures s.view.selected.Some? ==> r.view.selected == s.view.selected
    ensures s.view.selected.None? && loaded.Success? && |loaded.value| > 0 ==> r.view.selected == Some(loaded.value[0])
  {
    Session(LoadPosts(s.view.selected, s.view, loaded), s.view.selected)
  }

  /** `handlePostSelect`: the user picks a post. */
  function SelectPost(s: Session, p: PostRow): (r: Session)
    ensures r.view.selected == Some(p) && r.view.posts == s.view.posts && r.captured == s.captured
  {
    s.(view := s.view.(selected := Some(p)))
  }

  /** A tick of the interval as written: the captured closure runs, so it
      tests the selection of the effect's render, not the current one. */
  function Refresh(s: Session, loaded: Result<seq<PostRow>, string>): (r: Session)
    ensures r.captured == s.captured
    ensures s.captured.None? && loaded.Success? && |loaded.value| > 0 ==> r.view.selected == Some(loaded.value[0])
  {
    s.(view := LoadPosts(s.captured, s.view, loaded))
  }

  /** The refresh as written overrides the user: after the dashboard mounts
      with nothing selected, a post the user picks is replaced by the first
      post of the next refresh whenever the two differ. */
  lemma RefreshReplacesUserChoice(v: PostsView, first: Result<seq<PostRow>, string>, p: PostRow,
                                  later: seq<PostRow>)
    requires v.selected.None? && |later| > 0 && later[0] != p
    ensures var s := SelectPost(RunEffect(Session(v, None), first), p);
      Refresh(s, Success(later)).view.selected != Some(p)
  {
  }

  /** A tick of the interval as evidently intended: the test reads the
      current selection, as a functional state update would. */
  function RefreshLive(s: Session, loaded: Result<seq<PostRow>, string>): (r: Session)
    ensures r.captured == s.captured
    ensures s.view.selected.Some? ==> r.view.selected == s.view.selected
    ensures s.view.selected.None? && loaded.Success? && |loaded.value| > 0 ==> r.view.selected == Some(loaded.value[0])
  {
    s.(view := LoadPosts(s.view.selected, s.view, loaded))
  }

  /** With the intended refresh, a post the user picks stays selected
      through any number of refreshes, whatever they load. */
  lemma {:induction false} LiveRefreshKeepsUserChoice(s: Session, p: PostRow, loads: seq<Result<seq<PostRow>, string>>)
    ensures RefreshAll(SelectPost(s, p), loads).view.selected == Some(p)
    decreases |loads|
  {
    if |loads| > 0 {
      var s1 := RefreshLive(SelectPost(s, p), loads[0]);
      assert s1 == SelectPost(s1, p);
      LiveRefreshKeepsUserChoice(s1, p, loads[1..]);
    }
  }

  /** The intended refreshes, one per load, in order. */
  function RefreshAll(s: Session, loads: seq<Result<seq<PostRow>, string>>): Session
    decreases |loads|
  {
    if |loads| == 0 then s else RefreshAll(RefreshLive(s, loads[0]), loads[1..])
  }

  /** The automatically selected post is the most relevant one listed. */
  lemma AutoSelectedIsMostRelevant(v: PostsView, rows: seq<PostRow>, campaignId: nat, f: ApiClient.PostFilters)
    requires v.selected.None?
    ensures var listed := RedditRoutes.ListPosts(rows, campaignId, f.minRelevance, f.subreddit);
      var r := LoadPosts(v.selected, v, Success(listed));
      r.selected.Some? ==> forall p :: p in listed ==> r.selected.value.relevanceScore >= p.relevanceScore
  {
    var listed := RedditRoutes.ListPosts(rows, campaignId, f.minRelevance, f.subreddit);
    forall p | p in listed ensures listed[0].relevanceScore >= p.relevanceScore {
      var j :| 0 <= j < |listed| && listed[j] == p;
      if j > 0 {
        assert Sorting.Precedes(RedditRoutes.PostKey(listed[0]), RedditRoutes.PostKey(listed[j]));
      }
    }
  }

  // -------------------------------------------------------------- settings

  const DefaultRelevanceFilter: int := 60
  const DefaultSubredditFilter: string := ""
  const DefaultSortBy: string := "relevance"

  /** `useLocalStorage`'s initial value: the stored text parsed as JSON, or
      the default when reading fails, nothing (or an empty text) is stored,
      or the text does not parse. */
  function StoredSetting<T>(item: Result<Option<string>, string>, parse: string -> Option<T>, default: T): (v: T)
    ensures item.Failure? || item.value.None? || item.value.value == "" ==> v == default
    ensures item.Success? && item.value.Some? && item.value.value != "" && parse(item.value.value).Some? ==>
      v == parse(item.value.value).value
    ensures item.Success? && item.value.Some? && parse(item.value.value).None? ==> v == default
  {
    match item
    case Failure(_) => default
    case Success(None) => default
    case Success(Some(text)) =>
      if text == "" then default
      else match parse(text)
        case None => default
        case Some(value) => value
  }

  /** The three dashboard settings start from their defaults when nothing
      usable is stored. */
  lemma SettingsDefaults(item: Result<Option<string>, string>,
                         asInt: string -> Option<int>, asText: string -> Option<string>)
    requires item.Failure? || item.value.None?
    ensures StoredSetting(item, asInt, DefaultRelevanceFilter) == 60
    ensures StoredSetting(item, asText, DefaultSubredditFilter) == ""
    ensures StoredSetting(item, asText, DefaultSortBy) == "relevance"
  {
  }
}
