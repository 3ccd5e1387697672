/** The onboarding form: subreddit suggestions from the product
    description, toggling subreddits in and out of the selection, and the
    guards on moving to step 2 and on submitting. */
module Onboarding {
  import opened Basics
  import opened Text

  /** The suggestion table, in declaration order. */
  const SuggestionTable: seq<(string, seq<string>)> := [
    ("website builder", ["entrepreneur", "smallbusiness", "startups", "webdev", "web_design"]),
    ("ai tool", ["artificial", "MachineLearning", "ChatGPT", "OpenAI", "singularity"]),
    ("saas", ["SaaS", "entrepreneur", "startups", "smallbusiness", "EntrepreneurRideAlong"]),
    ("marketing", ["marketing", "digitalmarketing", "socialmedia", "PPC", "SEO"]),
    ("productivity", ["productivity", "getmotivated", "selfimprovement", "lifehacks", "organization"])
  ]

  /** The list used when no key matches: the `saas` entry. */
  const DefaultSuggestions: seq<string> := SuggestionTable[2].1

  /** The index of the first entry whose key occurs in `text`. */
  function FirstMatch(entries: seq<(string, seq<string>)>, text: string): (r: Option<nat>)
    ensures r.Some? ==> r.value < |entries| && Includes(text, entries[r.value].0)
    ensures r.Some? ==> forall j :: 0 <= j < r.value ==> !Includes(text, entries[j].0)
    ensures r.None? <==> forall j :: 0 <= j < |entries| ==> !Includes(text, entries[j].0)
  {
    if |entries| == 0 then None
    else if Includes(text, entries[0].0) then Some(0)
    else
      match FirstMatch(entries[1..], text)
      case None =>
        assert forall j :: 1 <= j < |entries| ==> entries[j] == entries[1..][j - 1];
        None
      case Some(k) =>
        assert forall j :: 1 <= j < |entries| ==> entries[j] == entries[1..][j - 1];
        Some(k + 1)
  }

  /** `getSuggestedSubreddits`: the list of the first key, in table order,
      that occurs in the lower-cased description; the `saas` list when
      none does. */
  function SuggestedSubreddits(description: string): (r: seq<string>)
    ensures forall j :: 0 <= j < |SuggestionTable| && Includes(LowerAscii(description), SuggestionTable[j].0) ==>
      exists i :: 0 <= i <= j && r == SuggestionTable[i].1 && Includes(LowerAscii(description), SuggestionTable[i].0)
    ensures (forall j :: 0 <= j < |SuggestionTable| ==> !Includes(LowerAscii(description), SuggestionTable[j].0)) ==>
      r == DefaultSuggestions
    ensures r == DefaultSuggestions || exists i :: 0 <= i < |SuggestionTable| && r == SuggestionTable[i].1
  {
    match FirstMatch(SuggestionTable, LowerAscii(description))
    case None => DefaultSuggestions
    case Some(i) => SuggestionTable[i].1
  }

  /** Matching ignores ASCII case: a description and its lower-cased form
      get the same suggestions. */
  lemma SuggestionsIgnoreCase(description: string)
    ensures SuggestedSubreddits(description) == SuggestedSubreddits(LowerAscii(description))
  {
    LowerAsciiIdempotent(description);
  }

  // -------------------------------------------------------------- toggling

  /** `filter(s => s !== item)`: every occurrence removed, order kept. */
  function Remove(xs: seq<string>, item: string): (r: seq<string>)
    ensures item !in r
    ensures forall x :: x != item ==> multiset(r)[x] == multiset(xs)[x]
    ensures |r| <= |xs|
  {
    if |xs| == 0 then []
    else
      assert xs == [xs[0]] + xs[1..];
      if xs[0] == item then Remove(xs[1..], item) else [xs[0]] + Remove(xs[1..], item)
  }

  /** Removing from a concatenation removes from each part, so the kept
      elements stay in their order. */
  lemma {:induction false} RemoveAppend(a: seq<string>, b: seq<string>, item: string)
    ensures Remove(a + b, item) == Remove(a, item) + Remove(b, item)
    decreases |a|
  {
    if |a| == 0 {
      assert a + b == b;
    } else {
      assert (a + b)[0] == a[0];
      assert (a + b)[1..] == a[1..] + b;
      RemoveAppend(a[1..], b, item);
    }
  }

  /** Removing an item that is not there changes nothing. */
  lemma {:induction false} RemoveAbsent(xs: seq<string>, item: string)
    requires item !in xs
    ensures Remove(xs, item) == xs
    decreases |xs|
  {
    if |xs| > 0 {
      assert xs[0] != item;
      RemoveAbsent(xs[1..], item);
      assert xs == [xs[0]] + xs[1..];
    }
  }

  /** `handleSubredditToggle`: a selected subreddit is removed (all of its
      occurrences), an unselected one is appended. */
  function Toggle(selected: seq<string>, subreddit: string): (r: seq<string>)
    ensures subreddit in r <==> subreddit !in selected
    ensures subreddit in selected ==> forall x :: x != subreddit ==> multiset(r)[x] == multiset(selected)[x]
    ensures subreddit !in selected ==> |r| == |selected| + 1 && r[..|selected|] == selected && r[|selected|] == subreddit
  {
    if subreddit in selected then Remove(selected, subreddit) else selected + [subreddit]
  }

  /** Toggling an unselected subreddit twice restores the selection. */
  lemma ToggleTwiceRestores(selected: seq<string>, subreddit: string)
    requires subreddit !in selected
    ensures Toggle(Toggle(selected, subreddit), subreddit) == selected
  {
    RemoveAppend(selected, [subreddit], subreddit);
    RemoveAbsent(selected, subreddit);
    assert Remove([subreddit], subreddit) == [];
  }

  // ---------------------------------------------------------------- guards

  /** The form fields the guards look at. */
  datatype FormData = FormData(productName: string, description: string, website: string, subreddits: seq<string>)

  /** `handleNext`: step 1 moves to step 2 only when the product name and
      description are both filled in. */
  function HandleNext(step: nat, form: FormData): (next: nat)
    ensures next == 2 <==> (step == 1 && form.productName != "" && form.description != "") || step == 2
    ensures next != step ==> step == 1 && next == 2
  {
    if step == 1 && form.productName != "" && form.description != "" then 2 else step
  }

  /** What a submission leads to. */
  datatype SubmitOutcome<+C> = Ignored | Created(campaign: C) | CreateFailed(message: string)

  /** `handleSubmit`: with no subreddit selected nothing happens (the
      create call is not made); otherwise the created campaign is handed on,
      or the failure is reported. */
  function HandleSubmit<C>(form: FormData, create: Result<C, string>): (r: SubmitOutcome<C>)
    ensures r.Ignored? <==> |form.subreddits| == 0
    ensures r.Created? <==> |form.subreddits| > 0 && create.Success?
    ensures r.Created? ==> r.campaign == create.value
  {
    if |form.subreddits| == 0 then Ignored
    else match create
      case Success(c) => Created(c)
      case Failure(message) => CreateFailed(message)
  }

  /** An empty selection is ignored whatever the server would answer. */
  lemma EmptySelectionIsIgnored<C>(form: FormData, a: Result<C, string>, b: Result<C, string>)
    requires |form.subreddits| == 0
    ensures HandleSubmit(form, a) == HandleSubmit(form, b) == Ignored
  {
  }
}
