/** The read side and the response route of the Reddit router: the posts
    listing, the per-subreddit summary and `POST /posts/:postId/response`.
    The posts table is given as its rows in storage order. */
module RedditRoutes {
  import opened Basics
  import opened Sorting
  import opened Database
  import AiService

  // --------------------------------------------------------- posts listing

  /** A row's position in `ORDER BY relevance_score DESC, created_at DESC`. */
  function PostKey(p: PostRow): Key {
    Key(p.relevanceScore, p.createdAt)
  }

  /** The listing's `WHERE` clause: the campaign, the relevance floor
      (0 when the parameter is absent) and, when a non-empty subreddit is
      given, exact equality on it. */
  predicate Listed(p: PostRow, campaignId: nat, minRelevance: Option<int>, subreddit: Option<string>) {
    && p.campaignId == Some(campaignId)
    && p.relevanceScore >= minRelevance.GetOr(0)
    && (subreddit.Some? && subreddit.value != "" ==> p.subreddit == subreddit.value)
  }

  /** `GET /posts/:campaignId`: the rows passing the filter, highest
      relevance first and, among equal relevance, newest first. */
  function ListPosts(rows: seq<PostRow>, campaignId: nat, minRelevance: Option<int>, subreddit: Option<string>)
    : (r: seq<PostRow>)
    ensures forall p :: p in r ==> p.campaignId == Some(campaignId) && p.relevanceScore >= minRelevance.GetOr(0)
    ensures forall p :: p in r && subreddit.Some? && subreddit.value != "" ==> p.subreddit == subreddit.value
    ensures forall p :: p in r <==> p in rows && Listed(p, campaignId, minRelevance, subreddit)
    ensures forall p :: multiset(r)[p] == if Listed(p, campaignId, minRelevance, subreddit) then multiset(rows)[p] else 0
    ensures SortedDesc(r, PostKey)
  {
    var kept := Filter(rows, (p: PostRow) => Listed(p, campaignId, minRelevance, subreddit));
    var r := SortDesc(kept, PostKey);
    SameMultisetSameMembers(r, kept);
    r
  }

  /** Parameters that amount to the same floor and the same subreddit
      restriction give the same listing. */
  lemma SameFiltersSameListing(rows: seq<PostRow>, campaignId: nat,
                               min1: Option<int>, sub1: Option<string>, min2: Option<int>, sub2: Option<string>)
    requires min1.GetOr(0) == min2.GetOr(0)
    requires (sub1.Some? && sub1.value != "") <==> (sub2.Some? && sub2.value != "")
    requires sub1.Some? && sub1.value != "" ==> sub1 == sub2
    ensures ListPosts(rows, campaignId, min1, sub1) == ListPosts(rows, campaignId, min2, sub2)
  {
    FilterAgrees(rows, (p: PostRow) => Listed(p, campaignId, min1, sub1), (p: PostRow) => Listed(p, campaignId, min2, sub2));
  }

  /** An absent floor is a floor of 0. */
  lemma AbsentFloorIsZero(rows: seq<PostRow>, campaignId: nat, subreddit: Option<string>)
    ensures ListPosts(rows, campaignId, None, subreddit) == ListPosts(rows, campaignId, Some(0), subreddit)
  {
    SameFiltersSameListing(rows, campaignId, None, subreddit, Some(0), subreddit);
  }

  /** An empty subreddit parameter is no filter at all. */
  lemma EmptySubredditIsNoFilter(rows: seq<PostRow>, campaignId: nat, minRelevance: Option<int>)
    ensures ListPosts(rows, campaignId, minRelevance, Some("")) == ListPosts(rows, campaignId, minRelevance, None)
  {
    SameFiltersSameListing(rows, campaignId, minRelevance, Some(""), minRelevance, None);
  }

  /** Raising the floor can only remove rows from the listing. */
  lemma HigherFloorListsFewer(rows: seq<PostRow>, campaignId: nat, lo: int, hi: int, subreddit: Option<string>)
    requires lo <= hi
    ensures forall p :: p in ListPosts(rows, campaignId, Some(hi), subreddit) ==> p in ListPosts(rows, campaignId, Some(lo), subreddit)
  {
    forall p | p in ListPosts(rows, campaignId, Some(hi), subreddit)
      ensures p in ListPosts(rows, campaignId, Some(lo), subreddit)
    {
      assert multiset(ListPosts(rows, campaignId, Some(hi), subreddit))[p] > 0;
      assert Listed(p, campaignId, Some(lo), subreddit);
    }
  }

  // ------------------------------------------------------ subreddit summary

  /** One row of `SELECT subreddit, COUNT(*) … GROUP BY subreddit`. */
  datatype SubredditCount = SubredditCount(subreddit: string, postCount: int)

  function NameOf(e: SubredditCount): string {
    e.subreddit
  }

  function CountOfEntry(e: SubredditCount): int {
    e.postCount
  }

  /** A summary row's position in `ORDER BY post_count DESC`. */
  function CountKey(e: SubredditCount): Key {
    Key(e.postCount, 0)
  }

  /** The campaign's rows, in storage order. */
  function CampaignPosts(rows: seq<PostRow>, campaignId: nat): (r: seq<PostRow>)
    ensures forall p :: p in r <==> p in rows && p.campaignId == Some(campaignId)
    ensures forall p :: multiset(r)[p] == if p.campaignId == Some(campaignId) then multiset(rows)[p] else 0
  {
    Filter(rows, (p: PostRow) => p.campaignId == Some(campaignId))
  }

  /** How many of the rows are in subreddit `name`. */
  function CountSubreddit(s: seq<PostRow>, name: string): (n: nat)
    ensures n > 0 <==> exists i :: 0 <= i < |s| && s[i].subreddit == name
    ensures n <= |s|
  {
    if |s| == 0 then 0
    else
      var rest := CountSubreddit(s[1..], name);
      assert forall i :: 1 <= i < |s| ==> s[i] == s[1..][i - 1];
      (if s[0].subreddit == name then 1 else 0) + rest
  }

  /** The count recorded for `name` in a tally, 0 when it has no entry. */
  function CountOf(t: seq<SubredditCount>, name: string): (n: int)
    ensures n != 0 ==> exists i :: 0 <= i < |t| && t[i].subreddit == name && t[i].postCount == n
  {
    if |t| == 0 then 0
    else if t[0].subreddit == name then t[0].postCount
    else
      var rest := CountOf(t[1..], name);
      assert rest != 0 ==> exists i :: 1 <= i < |t| && t[i].subreddit == name && t[i].postCount == rest by {
        if rest != 0 {
          var i :| 0 <= i < |t[1..]| && t[1..][i].subreddit == name && t[1..][i].postCount == rest;
          assert t[i + 1] == t[1..][i];
        }
      }
      rest
  }

  /** Counts one more row in subreddit `name`: the first entry for it goes
      up by one, or a new entry with count 1 is added at the end. */
  function Bump(t: seq<SubredditCount>, name: string): (r: seq<SubredditCount>)
    ensures SumBy(r, CountOfEntry) == SumBy(t, CountOfEntry) + 1
    ensures forall n :: CountOf(r, n) == CountOf(t, n) + (if n == name then 1 else 0)
    ensures forall e :: e in r ==> e.subreddit == name || e in t
  {
    if |t| == 0 then [SubredditCount(name, 1)]
    else if t[0].subreddit == name then
      var r := [t[0].(postCount := t[0].postCount + 1)] + t[1..];
      assert r[1..] == t[1..];
      r
    else
      var r := [t[0]] + Bump(t[1..], name);
      assert r[1..] == Bump(t[1..], name);
      r
  }

  /** The tail of a sequence without repeated names has none either. */
  lemma DistinctTail(t: seq<SubredditCount>)
    requires |t| > 0 && DistinctBy(t, NameOf)
    ensures DistinctBy(t[1..], NameOf)
    ensures forall e :: e in t[1..] ==> e.subreddit != t[0].subreddit
  {
    forall i, j | 0 <= i < j < |t[1..]| ensures NameOf(t[1..][i]) != NameOf(t[1..][j]) {
      assert t[1..][i] == t[i + 1] && t[1..][j] == t[j + 1];
    }
    forall e | e in t[1..] ensures e.subreddit != t[0].subreddit {
      var j :| 0 <= j < |t[1..]| && t[1..][j] == e;
      assert t[j + 1] == e;
    }
  }

  /** Counting a row never creates a second entry for a subreddit. */
  lemma {:induction false} BumpKeepsDistinct(t: seq<SubredditCount>, name: string)
    requires DistinctBy(t, NameOf)
    ensures DistinctBy(Bump(t, name), NameOf)
    decreases |t|
  {
    var r := Bump(t, name);
    if |t| == 0 {
    } else if t[0].subreddit == name {
      DistinctTail(t);
      forall i, j | 0 <= i < j < |r| ensures NameOf(r[i]) != NameOf(r[j]) {
        if i == 0 {
          assert r[j] == t[1..][j - 1] && t[1..][j - 1] in t[1..];
        } else {
          assert NameOf(t[i]) != NameOf(t[j]);
        }
      }
    } else {
      DistinctTail(t);
      var rest := Bump(t[1..], name);
      BumpKeepsDistinct(t[1..], name);
      assert r == [t[0]] + rest;
      forall i, j | 0 <= i < j < |r| ensures NameOf(r[i]) != NameOf(r[j]) {
        if i == 0 {
          assert r[j] == rest[j - 1] && rest[j - 1] in rest;
        } else {
          assert r[i] == rest[i - 1] && r[j] == rest[j - 1];
        }
      }
    }
  }

  /** `GROUP BY subreddit` with `COUNT(*)`, before ordering. */
  function Tally(s: seq<PostRow>): (t: seq<SubredditCount>)
    ensures DistinctBy(t, NameOf)
    ensures SumBy(t, CountOfEntry) == |s|
    ensures forall n :: CountOf(t, n) == CountSubreddit(s, n)
    ensures forall e :: e in t ==> exists i :: 0 <= i < |s| && s[i].subreddit == e.subreddit
  {
    if |s| == 0 then []
    else
      var rest := Tally(s[1..]);
      BumpKeepsDistinct(rest, s[0].subreddit);
      var t := Bump(rest, s[0].subreddit);
      assert forall n :: CountSubreddit(s, n) == CountSubreddit(s[1..], n) + (if n == s[0].subreddit then 1 else 0);
      assert forall i :: 0 <= i < |s[1..]| ==> s[1..][i] == s[i + 1];
      t
  }

  /** In a tally without repeated names, the count looked up for an entry's
      name is that entry's own count. */
  lemma {:induction false} CountOfDistinct(t: seq<SubredditCount>, i: nat)
    requires DistinctBy(t, NameOf) && i < |t|
    ensures CountOf(t, t[i].subreddit) == t[i].postCount
    decreases |t|
  {
    if i > 0 {
      assert NameOf(t[0]) != NameOf(t[i]);
      DistinctTail(t);
      CountOfDistinct(t[1..], i - 1);
      assert t[1..][i - 1] == t[i];
    }
  }

  /** Every tally entry carries its subreddit's row count, which is at least
      one, and every row's subreddit has an entry. */
  lemma TallyEntries(s: seq<PostRow>)
    ensures forall e :: e in Tally(s) ==> e.postCount == CountSubreddit(s, e.subreddit) && e.postCount >= 1
    ensures forall p :: p in s ==> exists e :: e in Tally(s) && e.subreddit == p.subreddit
  {
    var t := Tally(s);
    forall e | e in t ensures e.postCount == CountSubreddit(s, e.subreddit) && e.postCount >= 1 {
      var i :| 0 <= i < |t| && t[i] == e;
      CountOfDistinct(t, i);
    }
    forall p | p in s ensures exists e :: e in t && e.subreddit == p.subreddit {
      var k :| 0 <= k < |s| && s[k] == p;
      assert CountSubreddit(s, p.subreddit) > 0;
      var i :| 0 <= i < |t| && t[i].subreddit == p.subreddit && t[i].postCount == CountOf(t, p.subreddit);
      assert t[i] in t;
    }
  }

  /** `GET /subreddits/:campaignId`: one row per subreddit of the campaign's
      posts with the number of its posts, largest count first. */
  function SubredditSummary(rows: seq<PostRow>, campaignId: nat): (r: seq<SubredditCount>)
    ensures DistinctBy(r, NameOf)
    ensures forall e :: e in r ==>
      e.postCount == CountSubreddit(CampaignPosts(rows, campaignId), e.subreddit) && e.postCount >= 1
    ensures forall p :: p in rows && p.campaignId == Some(campaignId) ==>
      exists e :: e in r && e.subreddit == p.subreddit
    ensures SumBy(r, CountOfEntry) == |CampaignPosts(rows, campaignId)|
    ensures SortedDesc(r, CountKey)
  {
    var own := CampaignPosts(rows, campaignId);
    var t := Tally(own);
    var r := SortDesc(t, CountKey);
    PermutationKeepsDistinct(t, r, NameOf);
    PermutationKeepsSum(t, r, CountOfEntry);
    SameMultisetSameMembers(t, r);
    TallyEntries(own);
    r
  }

  // --------------------------------------------------------- response route

  /** The HTTP outcome of a route. */
  datatype Reply<+T> = Ok(body: T) | NotFound | ServerError

  /** The post with id `id`. */
  function FindPost(rows: seq<PostRow>, id: nat): Option<PostRow> {
    FindById(rows, (p: PostRow) => p.id, id)
  }

  /** The post joined with its campaign: absent when either is missing. */
  function PostWithCampaign(rows: seq<PostRow>, campaigns: seq<CampaignRow>, id: nat): (r: Option<(PostRow, CampaignRow)>)
    ensures r.Some? <==>
      && FindPost(rows, id).Some?
      && FindPost(rows, id).value.campaignId.Some?
      && FindCampaign(campaigns, FindPost(rows, id).value.campaignId.value).Some?
    ensures r.Some? ==> r.value.0.id == id && Some(r.value.1.id) == r.value.0.campaignId
  {
    match FindPost(rows, id)
    case None => None
    case Some(post) =>
      match post.campaignId
      case None => None
      case Some(cid) =>
        match FindCampaign(campaigns, cid)
        case None => None
        case Some(c) => Some((post, c))
  }

  /** `POST /posts/:postId/response`. A rejected JOIN lookup (`lookupFails`)
      is a 500; a post that is missing, or whose campaign is missing, is a
      404. Otherwise the Reddit submission is fetched (`submissionFetched`
      is whether that succeeded), a reply is generated, and it is stored
      with the requested type; a failed fetch, an insert the constraints
      reject, or an insert the engine fails (`insertFault`) is a 500.
      Nothing is written unless the reply is 200. */
  function RespondToPost(rows: seq<PostRow>, campaigns: seq<CampaignRow>, responses: ResponseTable,
                         postId: nat, responseType: Option<string>, lookupFails: bool, submissionFetched: bool,
                         insertFault: bool, ask: AiService.PromptKind -> AiService.LlmReply, now: int)
    : (r: (Reply<string>, ResponseTable))
    ensures lookupFails ==> r.0 == ServerError
    ensures !lookupFails && PostWithCampaign(rows, campaigns, postId).None? ==> r.0 == NotFound
    ensures r.0 == NotFound ==> !lookupFails && PostWithCampaign(rows, campaigns, postId).None?
    ensures !r.0.Ok? ==> r.1 == responses
    ensures r.0.Ok? <==>
      && !lookupFails
      && PostWithCampaign(rows, campaigns, postId).Some?
      && submissionFetched
      && responseType.Some? && (responseType.value == "comment" || responseType.value == "dm")
      && !insertFault
    ensures r.0.Ok? ==>
      && |r.1.rows| == |responses.rows| + 1
      && r.1.rows[..|responses.rows|] == responses.rows
      && r.1.rows[|responses.rows|].postId == Some(postId)
      && r.1.rows[|responses.rows|].content == r.0.body
      && (r.1.rows[|responses.rows|].kind == Dm <==> responseType == Some("dm"))
      && r.0.body == AiService.GenerateResponse(responseType.value, ask)
  {
    if lookupFails then (ServerError, responses)
    else if PostWithCampaign(rows, campaigns, postId).None? then (NotFound, responses)
    else if !submissionFetched then (ServerError, responses)
    else
      var content := AiService.GenerateResponse(responseType.GetOr(""), ask);
      match responseType
      case None => (ServerError, responses)
      case Some(kind) =>
        if insertFault then (ServerError, responses)
        else match InsertResponse(responses, Some(postId), kind, Some(content), now)
          case Failure(_) => (ServerError, responses)
          case Success((table, _)) => (Ok(content), table)
  }

  /** A response for an unknown post id, once the lookup has answered, is a
      404 and changes nothing, whatever the request and the oracles say. */
  lemma UnknownPostIsNotFound(rows: seq<PostRow>, campaigns: seq<CampaignRow>, responses: ResponseTable,
                              postId: nat, responseType: Option<string>, submissionFetched: bool,
                              insertFault: bool, ask: AiService.PromptKind -> AiService.LlmReply, now: int)
    requires forall p :: p in rows ==> p.id != postId
    ensures RespondToPost(rows, campaigns, responses, postId, responseType, false, submissionFetched, insertFault, ask, now)
      == (NotFound, responses)
  {
    assert forall i :: 0 <= i < |rows| ==> rows[i] in rows;
  }

  // ------------------------------------------------------------- handlers

  /** `GET /posts/:campaignId` as the handler answers it: `read` is what
      `allAsync` gives, the table's rows or the engine's error. A rejected
      query is a 500; otherwise the body is the listing, which is empty
      (never a 404) for an unknown campaign. */
  function PostsHandler(read: Result<seq<PostRow>, DbError>, campaignId: nat, minRelevance: Option<int>,
                        subreddit: Option<string>): (r: Reply<seq<PostRow>>)
    ensures r.Ok? <==> read.Success?
    ensures !r.Ok? ==> r == ServerError
    ensures r.Ok? ==> (forall p :: p in r.body <==> p in read.value && Listed(p, campaignId, minRelevance, subreddit))
    ensures r.Ok? ==> SortedDesc(r.body, PostKey)
  {
    match read
    case Failure(_) => ServerError
    case Success(rows) => Ok(ListPosts(rows, campaignId, minRelevance, subreddit))
  }

  /** `GET /subreddits/:campaignId` as the handler answers it: a rejected
      query is a 500; otherwise the body is the summary of the campaign's
      rows. */
  function SubredditsHandler(read: Result<seq<PostRow>, DbError>, campaignId: nat): (r: Reply<seq<SubredditCount>>)
    ensures r.Ok? <==> read.Success?
    ensures !r.Ok? ==> r == ServerError
    ensures r.Ok? ==> DistinctBy(r.body, NameOf) && SortedDesc(r.body, CountKey)
    ensures r.Ok? ==> SumBy(r.body, CountOfEntry) == |CampaignPosts(read.value, campaignId)|
  {
    match read
    case Failure(_) => ServerError
    case Success(rows) => Ok(SubredditSummary(rows, campaignId))
  }
}
