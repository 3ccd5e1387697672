/** The scan pipeline of the server: every campaign, in order; each of its
    subreddits, in order; the newest 25 posts of each; a post already stored
    (for any campaign) is skipped, any other is scored by the language model
    and stored only if its score exceeds 30.  An error inside a subreddit
    abandons the rest of that subreddit only; an error at campaign level
    skips that campaign only.  A boolean flag keeps scheduled ticks from
    overlapping.

    Every external effect is an oracle held in `Env`: whether the Reddit
    client can be built, the JSON decoding of a campaign's subreddit list,
    the listing Reddit returns for a subreddit, the model's answer for a
    post, and the database faults of the existence check and the insert. */
module RedditScanner {
  import opened Basics
  import AiService
  import Text
  import opened Database

  /** Posts requested per subreddit (`getNew({ limit: 25 })`). */
  const PageLimit: nat := 25
  /** Only posts scoring strictly more than this are stored. */
  const SaveThreshold: int := 30
  const RedditOrigin: string := "https://reddit.com"

  /** A Reddit submission as the scanner reads it. */
  datatype Submission = Submission(id: string, title: string, selftext: Option<string>, author: string,
                                   subreddit: string, permalink: string, createdUtc: int)

  /** What fetching a subreddit's newest posts produced, newest first. */
  datatype Listing = Listing(posts: seq<Submission>) | FetchFailed

  /** The time the database's `CURRENT_TIMESTAMP` reads at each insert,
      indexed by the AUTOINCREMENT id that insert hands out: inserts are
      numbered in the order they happen. */
  type Clock = nat -> int

  /** A wall clock that never runs back. */
  ghost predicate Steady(clock: Clock) {
    forall i: nat, j: nat :: i <= j ==> clock(i) <= clock(j)
  }

  datatype Env = Env(
    clientReady: bool,
    decodeSubreddits: string -> Option<seq<string>>,
    fetchNew: string -> Listing,
    judge: (CampaignRow, Submission) -> AiService.LlmReply,
    lookupFails: string -> bool,
    writeFails: string -> bool,
    clock: Clock)

  /** The relevance score `analyzePostRelevance` gives `p` for campaign `c`. */
  function ScoreOf(env: Env, c: CampaignRow, p: Submission): (score: int)
    ensures 0 <= score <= 100
  {
    AiService.RelevanceScore(env.judge(c, p))
  }

  /** `post.selftext || ''`. */
  function ContentOf(p: Submission): string {
    p.selftext.GetOr("")
  }

  /** The values the scanner binds when it stores `p`. */
  function NewPostFor(c: CampaignRow, p: Submission, score: int): NewPost {
    NewPost(Some(c.id), Some(p.id), Some(p.title), Some(ContentOf(p)), Some(p.author), Some(p.subreddit),
            Some(RedditOrigin + p.permalink), Some(score), Some(p.createdUtc))
  }

  /** `row` is the row the scanner stores for post `p` of campaign `c`: the
      campaign id, the Reddit fields, the url built from the permalink, a
      score above the threshold, and the time of its own insert. */
  ghost predicate Records(row: PostRow, c: CampaignRow, p: Submission, env: Env) {
    && row.campaignId == Some(c.id)
    && row.redditId == p.id
    && row.title == p.title
    && row.content == Some(ContentOf(p))
    && row.author == p.author
    && row.subreddit == p.subreddit
    && row.url == RedditOrigin + p.permalink
    && row.relevanceScore == ScoreOf(env, c, p)
    && row.relevanceScore > SaveThreshold
    && row.createdAt == env.clock(row.id)
    && row.redditCreatedAt == Some(p.createdUtc)
  }

  /** `t'` only adds rows to `t`: no row is changed or removed. */
  ghost predicate Grows(t: PostTable, t': PostTable) {
    && t.rows.Keys <= t'.rows.Keys
    && (forall k :: k in t.rows ==> t'.rows[k] == t.rows[k])
    && t.nextId <= t'.nextId
  }

  /** A row added by a sweep of campaign `c` over a table whose next id
      was `from`: inserted after every row already there, stamped by the
      clock at its own insert. */
  ghost predicate SweptRow(row: PostRow, c: CampaignRow, env: Env, from: nat) {
    && row.campaignId == Some(c.id)
    && SaveThreshold < row.relevanceScore <= 100
    && from <= row.id
    && row.createdAt == env.clock(row.id)
  }

  /** The outcome of scanning one subreddit's posts: the table after it, the
      ids sent to the model in order, and whether an error cut it short. */
  datatype PageOutcome = PageOutcome(table: PostTable, judged: seq<string>, abandoned: bool)

  /** The table the rest of a page is scanned from once post `p` has been
      dealt with without error: `p` stored when it is new and scores above
      the threshold, the table unchanged otherwise. */
  function Next(c: CampaignRow, p: Submission, env: Env, t: PostTable): (t': PostTable)
    ensures Grows(t, t')
    ensures t.Valid() ==> t'.Valid()
    ensures p.id in t'.rows <==> p.id in t.rows || ScoreOf(env, c, p) > SaveThreshold
    ensures t'.rows.Keys <= t.rows.Keys + {p.id}
    ensures p.id !in t.rows && p.id in t'.rows ==> Records(t'.rows[p.id], c, p, env)
  {
    var score := ScoreOf(env, c, p);
    if p.id !in t.rows && score > SaveThreshold then
      var np, now := NewPostFor(c, p, score), env.clock(t.nextId);
      StoreGrows(t, np, now);
      StoredRowRecords(c, p, env, t, score);
      StorePost(t, np, now)
    else t
  }

  /** Storing an admissible post adds exactly its key and changes no row. */
  lemma StoreGrows(t: PostTable, np: NewPost, now: int)
    requires Admissible(t, np)
    ensures var t' := StorePost(t, np, now);
      Grows(t, t') && t'.rows.Keys == t.rows.Keys + {np.redditId.value}
  {
  }

  /** The row `Next` inserts for `p` is the scanner's row for it. */
  lemma StoredRowRecords(c: CampaignRow, p: Submission, env: Env, t: PostTable, score: int)
    requires score == ScoreOf(env, c, p) > SaveThreshold
    ensures Records(RowFor(t, NewPostFor(c, p, score), env.clock(t.nextId)), c, p, env)
  {
  }

  /** The loop over one subreddit's posts: a failed existence check ends
      it; a stored post is skipped without judging; a new post is judged
      and, when it scores above the threshold, inserted, and a failed insert
      ends it. */
  function ScanPage(c: CampaignRow, posts: seq<Submission>, env: Env, t: PostTable): (r: PageOutcome)
    ensures Grows(t, r.table)
    ensures t.Valid() ==> r.table.Valid()
    decreases |posts|
  {
    if |posts| == 0 then PageOutcome(t, [], false)
    else
      var p := posts[0];
      if env.lookupFails(p.id) then PageOutcome(t, [], true)
      else if p.id in t.rows then ScanPage(c, posts[1..], env, t)
      else if ScoreOf(env, c, p) > SaveThreshold && env.writeFails(p.id) then PageOutcome(t, [p.id], true)
      else AfterJudging(p.id, ScanPage(c, posts[1..], env, Next(c, p, env, t)))
  }

  /** One step of a page scan whose first post does not cut it short: the
      rest of the page is scanned from `Next`, after judging the first post
      when it was not stored yet. */
  lemma PageStep(c: CampaignRow, posts: seq<Submission>, env: Env, t: PostTable)
    requires |posts| > 0 && !env.lookupFails(posts[0].id)
    requires posts[0].id in t.rows || ScoreOf(env, c, posts[0]) <= SaveThreshold || !env.writeFails(posts[0].id)
    ensures var r := ScanPage(c, posts, env, t);
      var rest := ScanPage(c, posts[1..], env, Next(c, posts[0], env, t));
      && r.table == rest.table
      && r.abandoned == rest.abandoned
      && r.judged == (if posts[0].id in t.rows then [] else [posts[0].id]) + rest.judged
  {
    if posts[0].id in t.rows {
      assert [] + ScanPage(c, posts[1..], env, t).judged == ScanPage(c, posts[1..], env, t).judged;
    }
  }

  /** Every row in `t'` and not in `t` was inserted after the rows of `t`
      and is the scanner's row for one of the posts, with that post's
      score, which exceeds 30. */
  ghost predicate AddsOnlyQualifyingRows(c: CampaignRow, posts: seq<Submission>, env: Env,
                                         t: PostTable, t': PostTable) {
    forall k :: k in t'.rows && k !in t.rows ==>
      && t.nextId <= t'.rows[k].id
      && exists i :: 0 <= i < |posts| && posts[i].id == k && Records(t'.rows[k], c, posts[i], env)
  }

  /** A post stored by `Next` keeps the scanner's row for it in every
      table that grows from there. */
  lemma FirstPostRow(c: CampaignRow, p: Submission, env: Env, t: PostTable, t'': PostTable)
    requires Grows(Next(c, p, env, t), t'')
    requires p.id !in t.rows && p.id in Next(c, p, env, t).rows
    ensures Records(t''.rows[p.id], c, p, env) && t''.rows[p.id].id == t.nextId
  {
  }

  /** The rows added after the first post are added by the rest of the page
      or are the first post's own row. */
  lemma AddsStep(c: CampaignRow, posts: seq<Submission>, env: Env, t: PostTable, t'': PostTable)
    requires |posts| > 0
    requires Grows(Next(c, posts[0], env, t), t'')
    requires AddsOnlyQualifyingRows(c, posts[1..], env, Next(c, posts[0], env, t), t'')
    ensures AddsOnlyQualifyingRows(c, posts, env, t, t'')
  {
    var t' := Next(c, posts[0], env, t);
    forall k | k in t''.rows && k !in t.rows
      ensures t.nextId <= t''.rows[k].id
      ensures exists i :: 0 <= i < |posts| && posts[i].id == k && Records(t''.rows[k], c, posts[i], env)
    {
      if k in t'.rows {
        AddedByFirst(c, posts, env, t, t'', k);
      } else {
        AddedByRest(c, posts, env, t, t', t'', k);
      }
    }
  }

  /** A row the first post's step added is that post's row. */
  lemma AddedByFirst(c: CampaignRow, posts: seq<Submission>, env: Env, t: PostTable, t'': PostTable, k: string)
    requires |posts| > 0
    requires Grows(Next(c, posts[0], env, t), t'')
    requires k in Next(c, posts[0], env, t).rows && k !in t.rows
    ensures t.nextId <= t''.rows[k].id
    ensures exists i :: 0 <= i < |posts| && posts[i].id == k && Records(t''.rows[k], c, posts[i], env)
  {
    FirstPostRow(c, posts[0], env, t, t'');
    assert posts[0].id == k && Records(t''.rows[k], c, posts[0], env);
  }

  /** A row the rest of the page added is the row of one of its posts. */
  lemma AddedByRest(c: CampaignRow, posts: seq<Submission>, env: Env, t: PostTable, t': PostTable, t'': PostTable, k: string)
    requires |posts| > 0 && t.nextId <= t'.nextId
    requires AddsOnlyQualifyingRows(c, posts[1..], env, t', t'')
    requires k in t''.rows && k !in t'.rows
    ensures t.nextId <= t''.rows[k].id
    ensures exists i :: 0 <= i < |posts| && posts[i].id == k && Records(t''.rows[k], c, posts[i], env)
  {
    var i :| 0 <= i < |posts[1..]| && posts[1..][i].id == k && Records(t''.rows[k], c, posts[1..][i], env);
    assert posts[i + 1] == posts[1..][i];
    assert t.nextId <= t'.nextId <= t''.rows[k].id;
  }

  /** Every row a page scan adds is the scanner's row for one of the
      page's posts. */
  lemma {:induction false} PageAddsOnlyQualifyingRows(c: CampaignRow, posts: seq<Submission>, env: Env, t: PostTable)
    ensures AddsOnlyQualifyingRows(c, posts, env, t, ScanPage(c, posts, env, t).table)
    decreases |posts|
  {
    if |posts| == 0 || env.lookupFails(posts[0].id) {
      assert ScanPage(c, posts, env, t).table == t;
      return;
    }
    var p := posts[0];
    if p.id in t.rows || ScoreOf(env, c, p) <= SaveThreshold || !env.writeFails(p.id) {
      var t' := Next(c, p, env, t);
      PageStep(c, posts, env, t);
      PageAddsOnlyQualifyingRows(c, posts[1..], env, t');
      AddsStep(c, posts, env, t, ScanPage(c, posts[1..], env, t').table);
    } else {
      assert ScanPage(c, posts, env, t).table == t;
    }
  }

  /** The ids of a page's posts, in order. */
  function Ids(posts: seq<Submission>): (ids: seq<string>)
    ensures |ids| == |posts| && forall i :: 0 <= i < |posts| ==> ids[i] == posts[i].id
  {
    if |posts| == 0 then [] else [posts[0].id] + Ids(posts[1..])
  }

  /** Only posts not yet stored, for any campaign, are sent to the model,
      and only posts of the page. */
  lemma {:induction false} PageJudgesOnlyUnstoredPosts(c: CampaignRow, posts: seq<Submission>, env: Env, t: PostTable)
    ensures forall k :: k in ScanPage(c, posts, env, t).judged ==> k !in t.rows && k in Ids(posts)
    decreases |posts|
  {
    if |posts| == 0 || env.lookupFails(posts[0].id) {
      assert ScanPage(c, posts, env, t).judged == [];
      return;
    }
    var p := posts[0];
    var r := ScanPage(c, posts, env, t);
    assert Ids(posts) == [p.id] + Ids(posts[1..]);
    if p.id in t.rows || ScoreOf(env, c, p) <= SaveThreshold || !env.writeFails(p.id) {
      var t' := Next(c, p, env, t);
      PageStep(c, posts, env, t);
      PageJudgesOnlyUnstoredPosts(c, posts[1..], env, t');
      var rest := ScanPage(c, posts[1..], env, t');
      assert r.judged == (if p.id in t.rows then [] else [p.id]) + rest.judged;
      assert forall k :: k in rest.judged ==> k !in t'.rows && k in Ids(posts[1..]);
    } else {
      assert r.judged == [p.id];
    }
  }

  /** A page scan that is not cut short stores every post that was not
      already stored and scores above 30. */
  lemma {:induction false} PageStoresEveryQualifyingPost(c: CampaignRow, posts: seq<Submission>, env: Env, t: PostTable)
    ensures var r := ScanPage(c, posts, env, t);
      !r.abandoned ==>
        forall i :: 0 <= i < |posts| && posts[i].id !in t.rows && ScoreOf(env, c, posts[i]) > SaveThreshold ==>
          posts[i].id in r.table.rows
    decreases |posts|
  {
    if |posts| == 0 || env.lookupFails(posts[0].id) {
      return;
    }
    var p := posts[0];
    if p.id in t.rows || ScoreOf(env, c, p) <= SaveThreshold || !env.writeFails(p.id) {
      var t' := Next(c, p, env, t);
      PageStep(c, posts, env, t);
      PageStoresEveryQualifyingPost(c, posts[1..], env, t');
      var rest := ScanPage(c, posts[1..], env, t');
      if !rest.abandoned {
        forall i | 0 <= i < |posts| && posts[i].id !in t.rows && ScoreOf(env, c, posts[i]) > SaveThreshold
          ensures posts[i].id in rest.table.rows
        {
          if posts[i].id !in t'.rows {
            assert i > 0;
            assert posts[1..][i - 1] == posts[i];
          }
        }
      }
    }
  }

  /** A page scan is cut short only by a failed existence check or a failed
      insert. */
  lemma {:induction false} PageAbandonsOnlyOnFault(c: CampaignRow, posts: seq<Submission>, env: Env, t: PostTable)
    ensures ScanPage(c, posts, env, t).abandoned ==>
      exists i :: 0 <= i < |posts| && (env.lookupFails(posts[i].id) || env.writeFails(posts[i].id))
    decreases |posts|
  {
    if |posts| == 0 {
      return;
    }
    var p := posts[0];
    if env.lookupFails(p.id) || (p.id !in t.rows && ScoreOf(env, c, p) > SaveThreshold && env.writeFails(p.id)) {
      assert env.lookupFails(posts[0].id) || env.writeFails(posts[0].id);
    } else {
      var t' := Next(c, p, env, t);
      PageStep(c, posts, env, t);
      PageAbandonsOnlyOnFault(c, posts[1..], env, t');
      FaultInTail(posts, env);
    }
  }

  /** A fault on a later post is a fault on some post of the page. */
  lemma FaultInTail(posts: seq<Submission>, env: Env)
    requires |posts| > 0
    ensures (exists i :: 0 <= i < |posts[1..]| && (env.lookupFails(posts[1..][i].id) || env.writeFails(posts[1..][i].id)))
      ==> exists i :: 0 <= i < |posts| && (env.lookupFails(posts[i].id) || env.writeFails(posts[i].id))
  {
    if exists i :: 0 <= i < |posts[1..]| && (env.lookupFails(posts[1..][i].id) || env.writeFails(posts[1..][i].id)) {
      var i :| 0 <= i < |posts[1..]| && (env.lookupFails(posts[1..][i].id) || env.writeFails(posts[1..][i].id));
      assert posts[i + 1] == posts[1..][i];
    }
  }

  /** Without a fault, a page scan stores exactly the posts that were not
      stored before and score above 30. */
  lemma PageStoresExactlyQualifyingPosts(c: CampaignRow, posts: seq<Submission>, env: Env, t: PostTable)
    requires forall i :: 0 <= i < |posts| ==> !env.lookupFails(posts[i].id) && !env.writeFails(posts[i].id)
    ensures var r := ScanPage(c, posts, env, t);
      !r.abandoned && forall k :: (k in r.table.rows && k !in t.rows) <==>
        (k !in t.rows && exists i :: 0 <= i < |posts| && posts[i].id == k && ScoreOf(env, c, posts[i]) > SaveThreshold)
  {
    PageAbandonsOnlyOnFault(c, posts, env, t);
    PageAddsOnlyQualifyingRows(c, posts, env, t);
    PageStoresEveryQualifyingPost(c, posts, env, t);
  }

  /** `rb` run after `ra`: nothing of it when `ra` was cut short. */
  function Sequel(ra: PageOutcome, rb: PageOutcome): PageOutcome {
    if ra.abandoned then ra else PageOutcome(rb.table, ra.judged + rb.judged, rb.abandoned)
  }

  /** `r` preceded by sending `id` to the model. */
  function AfterJudging(id: string, r: PageOutcome): PageOutcome {
    PageOutcome(r.table, [id] + r.judged, r.abandoned)
  }

  lemma JudgedStep(id: string, ra: PageOutcome, rb: PageOutcome)
    ensures AfterJudging(id, Sequel(ra, rb)) == Sequel(AfterJudging(id, ra), rb)
  {
    assert [id] + (ra.judged + rb.judged) == ([id] + ra.judged) + rb.judged;
  }

  /** Scanning `a + b` is scanning `a`, then (unless `a` was cut short)
      scanning `b` from where `a` left the table: an error abandons exactly
      the posts after it. */
  lemma {:induction false} PageSplit(c: CampaignRow, a: seq<Submission>, b: seq<Submission>, env: Env, t: PostTable)
    ensures var ra := ScanPage(c, a, env, t);
      ScanPage(c, a + b, env, t) == Sequel(ra, ScanPage(c, b, env, ra.table))
    decreases |a|
  {
    if |a| == 0 {
      assert a + b == b;
      return;
    }
    assert (a + b)[0] == a[0];
    assert (a + b)[1..] == a[1..] + b;
    var p := a[0];
    if env.lookupFails(p.id) {
      return;
    }
    var score := ScoreOf(env, c, p);
    if p.id in t.rows {
      PageSplit(c, a[1..], b, env, t);
    } else if score <= SaveThreshold {
      PageSplit(c, a[1..], b, env, t);
      var ra := ScanPage(c, a[1..], env, t);
      JudgedStep(p.id, ra, ScanPage(c, b, env, ra.table));
    } else if !env.writeFails(p.id) {
      var t' := StorePost(t, NewPostFor(c, p, score), env.clock(t.nextId));
      PageSplit(c, a[1..], b, env, t');
      var ra := ScanPage(c, a[1..], env, t');
      JudgedStep(p.id, ra, ScanPage(c, b, env, ra.table));
    }
  }

  // ------------------------------------------------------------ subreddits

  /** The posts of a listing the scanner looks at: the newest `PageLimit`. */
  function Newest(posts: seq<Submission>): (page: seq<Submission>)
    ensures |page| <= PageLimit && |page| <= |posts| && page == posts[..|page|]
    ensures |posts| >= PageLimit ==> |page| == PageLimit
    ensures |posts| < PageLimit ==> page == posts
  {
    if |posts| <= PageLimit then posts else posts[..PageLimit]
  }

  /** One subreddit: fetch its newest posts and scan them; a failed fetch
      changes nothing. */
  function ScanSubreddit(c: CampaignRow, name: string, env: Env, t: PostTable): (r: PageOutcome)
    ensures Grows(t, r.table)
    ensures t.Valid() ==> r.table.Valid()
    ensures forall k :: k in r.table.rows && k !in t.rows ==> SweptRow(r.table.rows[k], c, env, t.nextId)
    ensures env.fetchNew(name).FetchFailed? ==> r.table == t && r.judged == []
  {
    match env.fetchNew(name)
    case FetchFailed => PageOutcome(t, [], true)
    case Listing(posts) =>
      PageAddsOnlyQualifyingRows(c, Newest(posts), env, t);
      ScanPage(c, Newest(posts), env, t)
  }

  /** Only posts among the newest 25 of a subreddit's listing, and not yet
      stored, are ever sent to the model. */
  lemma SubredditJudgesOnlyNewestUnstored(c: CampaignRow, name: string, env: Env, t: PostTable)
    ensures forall k :: k in ScanSubreddit(c, name, env, t).judged ==>
      && k !in t.rows
      && env.fetchNew(name).Listing?
      && exists i :: 0 <= i < |env.fetchNew(name).posts| && i < PageLimit && env.fetchNew(name).posts[i].id == k
  {
    match env.fetchNew(name)
    case FetchFailed =>
    case Listing(posts) =>
      var page := Newest(posts);
      PageJudgesOnlyUnstoredPosts(c, page, env, t);
      forall k | k in ScanSubreddit(c, name, env, t).judged
        ensures exists i :: 0 <= i < |posts| && i < PageLimit && posts[i].id == k
      {
        var i :| 0 <= i < |page| && Ids(page)[i] == k;
        assert posts[i] == page[i];
      }
  }

  /** The loop over a campaign's subreddits, in order; each one starts from
      the table the previous one left, whatever happened in it. */
  function ScanSubreddits(c: CampaignRow, names: seq<string>, env: Env, t: PostTable): (t': PostTable)
    ensures Grows(t, t')
    ensures t.Valid() ==> t'.Valid()
    ensures forall k :: k in t'.rows && k !in t.rows ==> SweptRow(t'.rows[k], c, env, t.nextId)
    decreases |names|
  {
    if |names| == 0 then t
    else ScanSubreddits(c, names[1..], env, ScanSubreddit(c, names[0], env, t).table)
  }

  /** Scanning `a + b` is scanning `a` and then `b`. */
  lemma {:induction false} SubredditsSplit(c: CampaignRow, a: seq<string>, b: seq<string>, env: Env, t: PostTable)
    ensures ScanSubreddits(c, a + b, env, t) == ScanSubreddits(c, b, env, ScanSubreddits(c, a, env, t))
    decreases |a|
  {
    if |a| == 0 {
      assert a + b == b;
    } else {
      assert (a + b)[0] == a[0];
      assert (a + b)[1..] == a[1..] + b;
      SubredditsSplit(c, a[1..], b, env, ScanSubreddit(c, a[0], env, t).table);
    }
  }

  /** Whatever happens inside one subreddit, including an error that cuts
      its page short, the subreddits after it are scanned from the table it
      left. */
  lemma LaterSubredditsStillScanned(c: CampaignRow, a: seq<string>, name: string, b: seq<string>, env: Env, t: PostTable)
    ensures ScanSubreddits(c, a + [name] + b, env, t) ==
      ScanSubreddits(c, b, env, ScanSubreddit(c, name, env, ScanSubreddits(c, a, env, t)).table)
  {
    SubredditsSplit(c, a + [name], b, env, t);
    SubredditsSplit(c, a, [name], env, t);
    var mid := ScanSubreddits(c, a, env, t);
    assert ScanSubreddits(c, [name], env, mid) == ScanSubreddit(c, name, env, mid).table by {
      assert [name][1..] == [];
    }
  }

  /** A subreddit whose fetch fails is as if it were not in the list. */
  lemma FailedFetchIsSkipped(c: CampaignRow, names: seq<string>, i: nat, env: Env, t: PostTable)
    requires i < |names| && env.fetchNew(names[i]).FetchFailed?
    ensures ScanSubreddits(c, names, env, t) == ScanSubreddits(c, names[..i] + names[i + 1..], env, t)
  {
    assert names == names[..i] + [names[i]] + names[i + 1..];
    LaterSubredditsStillScanned(c, names[..i], names[i], names[i + 1..], env, t);
    SubredditsSplit(c, names[..i], names[i + 1..], env, t);
  }

  // ------------------------------------------------------------- campaigns

  /** One campaign: building the Reddit client and decoding the subreddit
      list are campaign-level steps, and either failing skips the campaign. */
  function ScanCampaign(c: CampaignRow, env: Env, t: PostTable): (t': PostTable)
    ensures Grows(t, t')
    ensures t.Valid() ==> t'.Valid()
    ensures forall k :: k in t'.rows && k !in t.rows ==> SweptRow(t'.rows[k], c, env, t.nextId)
    ensures !env.clientReady || env.decodeSubreddits(c.subreddits).None? ==> t' == t
  {
    if !env.clientReady then t
    else match env.decodeSubreddits(c.subreddits)
      case None => t
      case Some(names) => ScanSubreddits(c, names, env, t)
  }

  /** The loop over all campaigns, in order. */
  function ScanCampaigns(cs: seq<CampaignRow>, env: Env, t: PostTable): (t': PostTable)
    ensures Grows(t, t')
    ensures t.Valid() ==> t'.Valid()
    ensures forall k :: k in t'.rows && k !in t.rows ==>
      exists i :: 0 <= i < |cs| && SweptRow(t'.rows[k], cs[i], env, t.nextId)
    decreases |cs|
  {
    if |cs| == 0 then t
    else
      var t1 := ScanCampaign(cs[0], env, t);
      var t' := ScanCampaigns(cs[1..], env, t1);
      assert forall k :: k in t'.rows && k !in t.rows ==>
        exists i :: 0 <= i < |cs| && SweptRow(t'.rows[k], cs[i], env, t.nextId) by {
        forall k | k in t'.rows && k !in t.rows
          ensures exists i :: 0 <= i < |cs| && SweptRow(t'.rows[k], cs[i], env, t.nextId)
        {
          if k in t1.rows {
            assert t'.rows[k] == t1.rows[k];
            assert SweptRow(t'.rows[k], cs[0], env, t.nextId);
          } else {
            var i :| 0 <= i < |cs[1..]| && SweptRow(t'.rows[k], cs[1..][i], env, t1.nextId);
            assert cs[i + 1] == cs[1..][i];
          }
        }
      }
      t'
  }

  /** Scanning campaigns `a + b` is scanning `a` and then `b`. */
  lemma {:induction false} CampaignsSplit(a: seq<CampaignRow>, b: seq<CampaignRow>, env: Env, t: PostTable)
    ensures ScanCampaigns(a + b, env, t) == ScanCampaigns(b, env, ScanCampaigns(a, env, t))
    decreases |a|
  {
    if |a| == 0 {
      assert a + b == b;
    } else {
      assert (a + b)[0] == a[0];
      assert (a + b)[1..] == a[1..] + b;
      CampaignsSplit(a[1..], b, env, ScanCampaign(a[0], env, t));
    }
  }

  /** A campaign whose subreddit list cannot be decoded is as if it were
      not there: the campaigns after it are still scanned. */
  lemma FailedCampaignIsSkipped(cs: seq<CampaignRow>, i: nat, env: Env, t: PostTable)
    requires i < |cs| && env.decodeSubreddits(cs[i].subreddits).None?
    ensures ScanCampaigns(cs, env, t) == ScanCampaigns(cs[..i] + cs[i + 1..], env, t)
  {
    assert cs == cs[..i] + ([cs[i]] + cs[i + 1..]);
    CampaignsSplit(cs[..i], [cs[i]] + cs[i + 1..], env, t);
    CampaignsSplit(cs[..i], cs[i + 1..], env, t);
    var mid := ScanCampaigns(cs[..i], env, t);
    assert ([cs[i]] + cs[i + 1..])[1..] == cs[i + 1..];
    assert ScanCampaigns([cs[i]] + cs[i + 1..], env, mid) == ScanCampaigns(cs[i + 1..], env, mid);
  }

  /** `scanAllCampaigns`: loading the campaigns may fail (`None`), which
      ends the run without a change. */
  function ScanAll(load: Option<seq<CampaignRow>>, env: Env, t: PostTable): (t': PostTable)
    ensures Grows(t, t')
    ensures t.Valid() ==> t'.Valid()
    ensures load.None? ==> t' == t
    ensures forall k :: k in t'.rows && k !in t.rows ==>
      && SaveThreshold < t'.rows[k].relevanceScore <= 100
      && t.nextId <= t'.rows[k].id
      && t'.rows[k].createdAt == env.clock(t'.rows[k].id)
  {
    match load
    case None => t
    case Some(cs) => ScanCampaigns(cs, env, t)
  }

  /** The rows one sweep adds come after every row that was there before
      it, and, on a clock that never runs back, their `created_at` stamps
      never decrease in the order they were inserted, which is the order of
      their ids. */
  lemma SweepStampsFollowInsertionOrder(load: Option<seq<CampaignRow>>, env: Env, t: PostTable)
    requires t.Valid() && Steady(env.clock)
    ensures var t' := ScanAll(load, env, t);
      && (forall k, k' :: k in t.rows && k' in t'.rows && k' !in t.rows ==> t'.rows[k].id < t'.rows[k'].id)
      && (forall k, k' :: (k in t'.rows && k !in t.rows && k' in t'.rows && k' !in t.rows
            && t'.rows[k].id <= t'.rows[k'].id) ==> t'.rows[k].createdAt <= t'.rows[k'].createdAt)
  {
  }

  /** `scanCampaignNow`: true iff the campaign lookup succeeds and finds the
      campaign, whatever then happens while scanning it; false leaves the
      table untouched. */
  function ScanCampaignNow(campaigns: seq<CampaignRow>, lookupFails: bool, id: nat, env: Env, t: PostTable)
    : (r: (bool, PostTable))
    ensures r.0 <==> !lookupFails && exists i :: 0 <= i < |campaigns| && campaigns[i].id == id
    ensures !r.0 ==> r.1 == t
    ensures Grows(t, r.1)
    ensures forall k :: k in r.1.rows && k !in t.rows ==> r.1.rows[k].campaignId == Some(id)
  {
    if lookupFails then (false, t)
    else match FindCampaign(campaigns, id)
      case None => (false, t)
      case Some(c) => (true, ScanCampaign(c, env, t))
  }

  // ------------------------------------------------------------- scheduler

  /** The scanner's state: the `isScanning` flag and the posts table. */
  datatype Scanner = Scanner(isScanning: bool, posts: PostTable)

  /** Entering a cron tick: a tick that finds the flag set does nothing;
      otherwise it sets the flag and runs (the second component). */
  function BeginTick(s: Scanner): (r: (Scanner, bool))
    ensures r.1 <==> !s.isScanning
    ensures r.1 ==> r.0.isScanning && r.0.posts == s.posts
    ensures !r.1 ==> r.0 == s
  {
    if s.isScanning then (s, false) else (s.(isScanning := true), true)
  }

  /** Leaving a tick that ran: the `finally` block clears the flag. */
  function EndTick(s: Scanner, posts: PostTable): (r: Scanner)
    ensures !r.isScanning && r.posts == posts
  {
    Scanner(false, posts)
  }

  /** A complete cron tick: skipped when a sweep is in progress, otherwise a
      full sweep bracketed by setting and clearing the flag. */
  function Tick(s: Scanner, load: Option<seq<CampaignRow>>, env: Env): (r: Scanner)
    ensures s.isScanning ==> r == s
    ensures !s.isScanning ==> !r.isScanning && Grows(s.posts, r.posts)
    ensures s.posts.Valid() ==> r.posts.Valid()
  {
    var (entered, ran) := BeginTick(s);
    if ran then EndTick(entered, ScanAll(load, env, entered.posts)) else entered
  }

  /** A tick that arrives while another tick's sweep is running performs no
      sweep and changes nothing; when that sweep ends the flag is clear
      again, so ticks never overlap and never queue. */
  lemma OverlappingTickIsSkipped(s: Scanner, load: Option<seq<CampaignRow>>, load2: Option<seq<CampaignRow>>,
                                 env: Env, env2: Env)
    requires !s.isScanning
    ensures var running := BeginTick(s).0;
      && Tick(running, load2, env2) == running
      && EndTick(running, ScanAll(load, env, running.posts)) == Tick(s, load, env)
      && !Tick(s, load, env).isScanning
  {
  }

  // -------------------------------------------------------------- scenario

  /** A page whose only post is new and scores above the threshold stores
      exactly that post. */
  lemma PageOfOneKept(c: CampaignRow, env: Env, d: Submission, t: PostTable)
    requires d.id !in t.rows && !env.lookupFails(d.id) && !env.writeFails(d.id)
    requires ScoreOf(env, c, d) > SaveThreshold
    ensures ScanPage(c, [d], env, t).table == StorePost(t, NewPostFor(c, d, ScoreOf(env, c, d)), env.clock(t.nextId))
  {
    assert [d][1..] == [];
  }

  /** A page whose only post is new and scores at most the threshold stores
      nothing. */
  lemma PageOfOneDropped(c: CampaignRow, env: Env, d: Submission, t: PostTable)
    requires d.id !in t.rows && !env.lookupFails(d.id)
    requires ScoreOf(env, c, d) <= SaveThreshold
    ensures ScanPage(c, [d], env, t).table == t
  {
    assert [d][1..] == [];
  }

  /** A subreddit listing a post that scores above the threshold and then
      one that does not stores just the first. */
  lemma KeepFirstOfTwo(c: CampaignRow, name: string, env: Env, a: Submission, b: Submission, t: PostTable)
    requires env.fetchNew(name) == Listing([a, b]) && a.id != b.id
    requires a.id !in t.rows && b.id !in t.rows
    requires !env.lookupFails(a.id) && !env.lookupFails(b.id) && !env.writeFails(a.id)
    requires ScoreOf(env, c, a) > SaveThreshold && ScoreOf(env, c, b) <= SaveThreshold
    ensures ScanSubreddit(c, name, env, t).table == StorePost(t, NewPostFor(c, a, ScoreOf(env, c, a)), env.clock(t.nextId))
  {
    var t1 := StorePost(t, NewPostFor(c, a, ScoreOf(env, c, a)), env.clock(t.nextId));
    var page := env.fetchNew(name).posts;
    assert page == [a, b];
    assert Newest(page) == page;
    assert ScanSubreddit(c, name, env, t) == ScanPage(c, page, env, t);
    PageOfOneDropped(c, env, b, t1);
    assert page[1..] == [b];
  }

  /** A subreddit listing one post that scores above the threshold stores it. */
  lemma KeepOnly(c: CampaignRow, name: string, env: Env, d: Submission, t: PostTable)
    requires env.fetchNew(name) == Listing([d]) && d.id !in t.rows
    requires !env.lookupFails(d.id) && !env.writeFails(d.id) && ScoreOf(env, c, d) > SaveThreshold
    ensures ScanSubreddit(c, name, env, t).table == StorePost(t, NewPostFor(c, d, ScoreOf(env, c, d)), env.clock(t.nextId))
  {
    var page := env.fetchNew(name).posts;
    assert page == [d];
    assert Newest(page) == page;
    assert ScanSubreddit(c, name, env, t) == ScanPage(c, page, env, t);
    PageOfOneKept(c, env, d, t);
  }

  /** Scanning two subreddits is scanning the first and then the second. */
  lemma TwoSubreddits(c: CampaignRow, n1: string, n2: string, env: Env, t: PostTable)
    ensures ScanSubreddits(c, [n1, n2], env, t)
         == ScanSubreddit(c, n2, env, ScanSubreddit(c, n1, env, t).table).table
  {
    var names := [n1, n2];
    var t1 := ScanSubreddit(c, n1, env, t).table;
    var t2 := ScanSubreddit(c, n2, env, t1).table;
    assert names[0] == n1 && names[1..] == [n2];
    assert ScanSubreddits(c, names, env, t) == ScanSubreddits(c, [n2], env, t1);
    assert [n2][1..] == [];
    assert ScanSubreddits(c, [n2], env, t1) == ScanSubreddits(c, [], env, t2);
  }

  /** The table a scan of the two subreddits below leaves, from any store
      holding none of the three posts: `a` stored, then `d`, each stamped
      at its own insert. */
  lemma TwoSubredditsTable(c: CampaignRow, env: Env, n1: string, n2: string,
                           a: Submission, b: Submission, d: Submission, t: PostTable)
    requires a.id != b.id && a.id != d.id && b.id != d.id
    requires a.id !in t.rows && b.id !in t.rows && d.id !in t.rows
    requires env.clientReady && env.decodeSubreddits(c.subreddits) == Some([n1, n2])
    requires env.fetchNew(n1) == Listing([a, b]) && env.fetchNew(n2) == Listing([d])
    requires !env.lookupFails(a.id) && !env.lookupFails(b.id) && !env.lookupFails(d.id)
    requires !env.writeFails(a.id) && !env.writeFails(d.id)
    requires ScoreOf(env, c, a) > SaveThreshold && ScoreOf(env, c, b) <= SaveThreshold
    requires ScoreOf(env, c, d) > SaveThreshold
    ensures ScanCampaign(c, env, t)
         == StorePost(StorePost(t, NewPostFor(c, a, ScoreOf(env, c, a)), env.clock(t.nextId)),
                      NewPostFor(c, d, ScoreOf(env, c, d)), env.clock(t.nextId + 1))
  {
    var pd := NewPostFor(c, d, ScoreOf(env, c, d));
    var t1 := StorePost(t, NewPostFor(c, a, ScoreOf(env, c, a)), env.clock(t.nextId));
    assert t1.nextId == t.nextId + 1 && d.id !in t1.rows;
    KeepFirstOfTwo(c, n1, env, a, b, t);
    var s1 := ScanSubreddit(c, n1, env, t).table;
    assert s1 == t1;
    KeepOnly(c, n2, env, d, t1);
    var s2 := ScanSubreddit(c, n2, env, s1).table;
    assert s2 == StorePost(t1, pd, env.clock(t1.nextId));
    assert env.clock(t1.nextId) == env.clock(t.nextId + 1);
    CampaignOfTwo(c, n1, n2, env, t);
    assert ScanCampaign(c, env, t) == s2;
  }

  /** A campaign with two subreddits scans the first and then the second. */
  lemma CampaignOfTwo(c: CampaignRow, n1: string, n2: string, env: Env, t: PostTable)
    requires env.clientReady && env.decodeSubreddits(c.subreddits) == Some([n1, n2])
    ensures ScanCampaign(c, env, t) == ScanSubreddit(c, n2, env, ScanSubreddit(c, n1, env, t).table).table
  {
    CampaignIsItsSubreddits(c, [n1, n2], env, t);
    TwoSubreddits(c, n1, n2, env, t);
  }

  /** A campaign whose client is ready and whose list decodes is the scan of
      that list. */
  lemma CampaignIsItsSubreddits(c: CampaignRow, names: seq<string>, env: Env, t: PostTable)
    requires env.clientReady && env.decodeSubreddits(c.subreddits) == Some(names)
    ensures ScanCampaign(c, env, t) == ScanSubreddits(c, names, env, t)
  {
  }

  /** Two subreddits, the first listing `a` then `b` and the second
      listing `d`, where `a` and `d` score above the threshold and `b` does
      not: a scan from an empty store keeps `a` and `d` only. */
  lemma TwoSubredditsKeepQualifying(c: CampaignRow, env: Env, n1: string, n2: string,
                                    a: Submission, b: Submission, d: Submission)
    requires a.id != b.id && a.id != d.id && b.id != d.id
    requires env.clientReady && env.decodeSubreddits(c.subreddits) == Some([n1, n2])
    requires env.fetchNew(n1) == Listing([a, b]) && env.fetchNew(n2) == Listing([d])
    requires !env.lookupFails(a.id) && !env.lookupFails(b.id) && !env.lookupFails(d.id)
    requires !env.writeFails(a.id) && !env.writeFails(d.id)
    requires ScoreOf(env, c, a) > SaveThreshold && ScoreOf(env, c, b) <= SaveThreshold
    requires ScoreOf(env, c, d) > SaveThreshold
    ensures var t := ScanCampaign(c, env, EmptyPosts());
      && t.rows.Keys == {a.id, d.id}
      && t.rows[a.id].relevanceScore == ScoreOf(env, c, a)
      && t.rows[d.id].relevanceScore == ScoreOf(env, c, d)
  {
    var t0 := EmptyPosts();
    assert t0.nextId == 1;
    var pa := NewPostFor(c, a, ScoreOf(env, c, a));
    var pd := NewPostFor(c, d, ScoreOf(env, c, d));
    TwoSubredditsTable(c, env, n1, n2, a, b, d, t0);
    assert ScanCampaign(c, env, t0) == StorePost(StorePost(t0, pa, env.clock(1)), pd, env.clock(2));
    StoreTwo(pa, pd, env.clock(1), env.clock(2));
  }

  /** Subreddits `test1` (posts `a`, `b`) and `test2` (post `c`), with the
      model answering "80", "10" and "95": a first scan on an empty store
      keeps `a` and `c` and leaves no row for `b`, which is judged again on
      the next scan. */
  lemma ScenarioStoresOnlyQualifying(c: CampaignRow, env: Env, a: Submission, b: Submission, d: Submission)
    requires a.id == "a" && b.id == "b" && d.id == "c"
    requires env.clientReady && env.decodeSubreddits(c.subreddits) == Some(["test1", "test2"])
    requires env.fetchNew("test1") == Listing([a, b]) && env.fetchNew("test2") == Listing([d])
    requires env.judge(c, a) == AiService.Answered(Some("80"))
    requires env.judge(c, b) == AiService.Answered(Some("10"))
    requires env.judge(c, d) == AiService.Answered(Some("95"))
    requires !env.lookupFails("a") && !env.lookupFails("b") && !env.lookupFails("c")
    requires !env.writeFails("a") && !env.writeFails("c")
    ensures var t := ScanCampaign(c, env, EmptyPosts());
      && t.rows.Keys == {"a", "c"}
      && t.rows["a"].relevanceScore == 80
      && t.rows["c"].relevanceScore == 95
  {
    AiService.ScoreOfTwoDigits("80", 80);
    AiService.ScoreOfTwoDigits("10", 10);
    AiService.ScoreOfTwoDigits("95", 95);
    TwoSubredditsKeepQualifying(c, env, "test1", "test2", a, b, d);
  }
}
