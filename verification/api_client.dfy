/** The browser-side API client: the URL it builds for the posts listing,
    the form encoding of its query string, and the rule that turns an HTTP
    reply into data or an error. */
module ApiClient {
  import opened Basics
  import opened Text
  import opened JsParseInt
  import RedditRoutes
  import Database

  const ApiBase: string := "/api"

  // ------------------------------------------------------------ request

  /** What `fetch` produced: a reply (with its body when it is valid JSON),
      or a rejected promise. */
  datatype FetchOutcome<+B> = Received(status: int, statusText: string, body: Option<B>) | FetchRejected(reason: string)

  /** The URL of an endpoint. */
  function Url(endpoint: string): (url: string)
    ensures |url| == |ApiBase| + |endpoint| && url[..|ApiBase|] == ApiBase && url[|ApiBase|..] == endpoint
  {
    ApiBase + endpoint
  }

  /** `request`: a reply outside 200..299 is an error carrying the status
      text, never data; a rejected fetch or an unreadable body is an error. */
  function Request<B>(outcome: FetchOutcome<B>): (r: Result<B, string>)
    ensures r.Success? <==> outcome.Received? && 200 <= outcome.status <= 299 && outcome.body.Some?
    ensures r.Success? ==> r.value == outcome.body.value
    ensures outcome.Received? && !(200 <= outcome.status <= 299) ==> r == Failure("API Error: " + outcome.statusText)
  {
    match outcome
    case FetchRejected(reason) => Failure(reason)
    case Received(status, statusText, body) =>
      if !(200 <= status <= 299) then Failure("API Error: " + statusText)
      else match body
        case None => Failure("Unexpected end of JSON input")
        case Some(b) => Success(b)
  }

  // ------------------------------------------------------- form encoding

  /** Characters `URLSearchParams` writes unchanged. */
  predicate Unreserved(c: char) {
    ('a' <= c <= 'z') || ('A' <= c <= 'Z') || ('0' <= c <= '9') || c == '*' || c == '-' || c == '.' || c == '_'
  }

  function HexDigit(d: nat): (c: char)
    requires d < 16
  {
    if d < 10 then ('0' as int + d) as char else ('A' as int + d - 10) as char
  }

  predicate IsHex(c: char) {
    ('0' <= c <= '9') || ('A' <= c <= 'F') || ('a' <= c <= 'f')
  }

  function HexValue(c: char): (d: nat)
    requires IsHex(c)
    ensures d < 16
  {
    if '0' <= c <= '9' then c as int - '0' as int
    else if 'A' <= c <= 'F' then c as int - 'A' as int + 10
    else c as int - 'a' as int + 10
  }

  lemma HexDigitValue(d: nat)
    requires d < 16
    ensures IsHex(HexDigit(d)) && HexValue(HexDigit(d)) == d
  {
  }

  /** One character of `application/x-www-form-urlencoded`: a space becomes
      `+`, other ASCII outside the unreserved set becomes `%XX`. */
  function EncodeChar(c: char): (e: string)
    ensures |e| > 0
    ensures '&' !in e && '=' !in e && '?' !in e
  {
    if Unreserved(c) then [c]
    else if c == ' ' then "+"
    else if c as int < 128 then ['%', HexDigit(c as int / 16), HexDigit(c as int % 16)]
    else [c]
  }

  /** Form encoding: each character becomes one or three characters, and
      text made only of unreserved characters is left as it is. */
  function FormEncode(s: string): (e: string)
    ensures '&' !in e && '=' !in e && '?' !in e
    ensures |s| <= |e| <= 3 * |s|
    ensures (forall i :: 0 <= i < |s| ==> Unreserved(s[i])) ==> e == s
  {
    if |s| == 0 then "" else EncodeChar(s[0]) + FormEncode(s[1..])
  }

  /** The form decoder: `+` is a space and `%` with two hex digits is the
      character with that code; anything else stands for itself. */
  function FormDecode(s: string): (d: string)
    decreases |s|
  {
    if |s| == 0 then ""
    else if s[0] == '+' then " " + FormDecode(s[1..])
    else if s[0] == '%' && |s| >= 3 && IsHex(s[1]) && IsHex(s[2]) then
      [(HexValue(s[1]) * 16 + HexValue(s[2])) as char] + FormDecode(s[3..])
    else [s[0]] + FormDecode(s[1..])
  }

  lemma DecodeEncodedChar(c: char, rest: string)
    ensures FormDecode(EncodeChar(c) + rest) == [c] + FormDecode(rest)
  {
    var e := EncodeChar(c) + rest;
    if !Unreserved(c) && c != ' ' && c as int < 128 {
      HexDigitValue(c as int / 16);
      HexDigitValue(c as int % 16);
      assert e[3..] == rest;
    } else {
      assert e[1..] == rest;
    }
  }

  /** Decoding undoes encoding. */
  lemma {:induction false} DecodeEncode(s: string)
    ensures FormDecode(FormEncode(s)) == s
    decreases |s|
  {
    if |s| > 0 {
      DecodeEncodedChar(s[0], FormEncode(s[1..]));
      DecodeEncode(s[1..]);
    }
  }

  // ------------------------------------------------------- query strings

  type Params = seq<(string, string)>

  function EncodePair(p: (string, string)): (e: string)
    ensures '&' !in e
  {
    FormEncode(p.0) + "=" + FormEncode(p.1)
  }

  /** Each pair encoded as `name=value`, in order. */
  function EncodePairs(ps: Params): (pieces: seq<string>)
    ensures |pieces| == |ps|
    ensures forall i :: 0 <= i < |ps| ==> pieces[i] == EncodePair(ps[i])
  {
    if |ps| == 0 then [] else [EncodePair(ps[0])] + EncodePairs(ps[1..])
  }

  /** `URLSearchParams.toString()`: encoded pairs joined with `&`. */
  function Serialize(ps: Params): (q: string)
    ensures q == "" <==> |ps| == 0
    ensures '?' !in q
  {
    if |ps| == 0 then ""
    else if |ps| == 1 then EncodePair(ps[0])
    else EncodePair(ps[0]) + "&" + Serialize(ps[1..])
  }

  /** The pieces of `s` between occurrences of `sep`. */
  function SplitOn(s: string, sep: char): (pieces: seq<string>)
    ensures |pieces| > 0
  {
    if |s| == 0 then [""]
    else
      var rest := SplitOn(s[1..], sep);
      if s[0] == sep then [""] + rest else [[s[0]] + rest[0]] + rest[1..]
  }

  /** `s` cut at the first `c`: the part before it and, if `c` occurs, the
      part after it. */
  function SplitAtFirst(s: string, c: char): (r: (string, Option<string>))
    ensures c !in r.0
    ensures r.1.None? <==> c !in s
    ensures r.1.Some? ==> s == r.0 + [c] + r.1.value
    ensures r.1.None? ==> r.0 == s
  {
    if |s| == 0 then ("", None)
    else if s[0] == c then ("", Some(s[1..]))
    else
      var r := SplitAtFirst(s[1..], c);
      ([s[0]] + r.0, r.1)
  }

  function ParsePair(piece: string): (string, string) {
    var (name, value) := SplitAtFirst(piece, '=');
    (FormDecode(name), FormDecode(value.GetOr("")))
  }

  function ParsePieces(pieces: seq<string>): (ps: Params)
    ensures |ps| <= |pieces|
  {
    if |pieces| == 0 then []
    else if pieces[0] == "" then ParsePieces(pieces[1..])
    else [ParsePair(pieces[0])] + ParsePieces(pieces[1..])
  }

  /** The server's query parser: split on `&`, skip empty pieces, split
      each at its first `=` and decode both halves. */
  function ParseQuery(q: string): (ps: Params)
    ensures q == "" ==> ps == []
    ensures |ps| <= |SplitOn(q, '&')|
    ensures q != "" && '&' !in q ==> ps == [ParsePair(q)]
  {
    if q == "" then []
    else if '&' in q then ParsePieces(SplitOn(q, '&'))
    else
      SplitOnPrefix(q, "", '&');
      assert q + "" == q;
      ParsePieces(SplitOn(q, '&'))
  }

  lemma {:induction false} SplitOnPrefix(a: string, rest: string, sep: char)
    requires sep !in a
    ensures SplitOn(a + rest, sep) == [a + SplitOn(rest, sep)[0]] + SplitOn(rest, sep)[1..]
    decreases |a|
  {
    if |a| > 0 {
      assert (a + rest)[1..] == a[1..] + rest;
      SplitOnPrefix(a[1..], rest, sep);
      assert [a[0]] + (a[1..] + SplitOn(rest, sep)[0]) == a + SplitOn(rest, sep)[0];
    } else {
      assert a + rest == rest;
      var pieces := SplitOn(rest, sep);
      assert a + pieces[0] == pieces[0];
      assert pieces == [pieces[0]] + pieces[1..];
    }
  }

  lemma {:induction false} SerializeSplits(ps: Params)
    requires |ps| > 0
    ensures SplitOn(Serialize(ps), '&') == EncodePairs(ps)
    decreases |ps|
  {
    var head := EncodePair(ps[0]);
    assert EncodePairs(ps) == [head] + EncodePairs(ps[1..]);
    if |ps| == 1 {
      assert EncodePairs(ps[1..]) == [];
      SplitOnPrefix(head, "", '&');
      assert head + "" == head;
    } else {
      var tail := Serialize(ps[1..]);
      assert Serialize(ps) == head + ("&" + tail);
      SerializeSplits(ps[1..]);
      var after := SplitOn("&" + tail, '&');
      assert after == [""] + SplitOn(tail, '&') by {
        assert ("&" + tail)[1..] == tail;
      }
      SplitOnPrefix(head, "&" + tail, '&');
      assert head + after[0] == head;
      assert after[1..] == EncodePairs(ps[1..]);
    }
  }

  lemma {:induction false} SplitAtFirstOccurrence(a: string, c: char, b: string)
    requires c !in a
    ensures SplitAtFirst(a + [c] + b, c) == (a, Some(b))
    decreases |a|
  {
    if |a| == 0 {
      assert a + [c] + b == [c] + b;
    } else {
      assert (a + [c] + b)[1..] == a[1..] + [c] + b;
      SplitAtFirstOccurrence(a[1..], c, b);
      assert [a[0]] + a[1..] == a;
    }
  }

  lemma ParsePairOfEncoded(p: (string, string))
    ensures ParsePair(EncodePair(p)) == p
  {
    var n := FormEncode(p.0);
    SplitAtFirstOccurrence(n, '=', FormEncode(p.1));
    assert n + "=" + FormEncode(p.1) == n + ['='] + FormEncode(p.1);
    DecodeEncode(p.0);
    DecodeEncode(p.1);
  }

  lemma {:induction false} ParseEncodedPieces(ps: Params)
    ensures ParsePieces(EncodePairs(ps)) == ps
    decreases |ps|
  {
    if |ps| > 0 {
      var pieces := EncodePairs(ps);
      assert pieces[0] == EncodePair(ps[0]) && pieces[1..] == EncodePairs(ps[1..]);
      assert pieces[0] != "" by {
        assert pieces[0][|FormEncode(ps[0].0)|] == '=';
      }
      ParsePairOfEncoded(ps[0]);
      ParseEncodedPieces(ps[1..]);
    }
  }

  /** Parsing a serialized parameter list gives the list back. */
  lemma ParseSerialize(ps: Params)
    ensures ParseQuery(Serialize(ps)) == ps
  {
    if |ps| > 0 {
      SerializeSplits(ps);
      ParseEncodedPieces(ps);
    }
  }

  // ------------------------------------------------------------ getPosts

  /** The filters `getPosts` receives. */
  datatype PostFilters = PostFilters(minRelevance: Option<int>, subreddit: Option<string>)

  /** `getPosts`' parameters: each filter only when it is truthy, so a
      relevance of 0 and an empty subreddit are left out. */
  function QueryParams(f: PostFilters): (ps: Params)
    ensures ("minRelevance", ShowInt(f.minRelevance.GetOr(0))) in ps <==> f.minRelevance.Some? && f.minRelevance.value != 0
    ensures (f.subreddit.Some? && f.subreddit.value != "") <==> ("subreddit", f.subreddit.GetOr("")) in ps
    ensures forall p :: p in ps ==> p.0 == "minRelevance" || p.0 == "subreddit"
  {
    (if f.minRelevance.Some? && f.minRelevance.value != 0 then [("minRelevance", ShowInt(f.minRelevance.value))] else [])
    + (if f.subreddit.Some? && f.subreddit.value != "" then [("subreddit", f.subreddit.value)] else [])
  }

  /** The endpoint `getPosts` requests: the query is appended after a `?`
      only when there is at least one parameter. */
  function PostsEndpoint(campaignId: nat, f: PostFilters): (e: string)
    ensures '?' in e <==> |QueryParams(f)| > 0
    ensures |QueryParams(f)| == 0 ==> e == "/reddit/posts/" + ShowNat(campaignId)
  {
    var q := Serialize(QueryParams(f));
    var path := "/reddit/posts/" + ShowNat(campaignId);
    PathHasNoQuery(campaignId);
    if q == "" then path else path + "?" + q
  }

  // -------------------------------------------------------- server side

  /** The first value given for `name`. */
  function Lookup(ps: Params, name: string): (v: Option<string>)
    ensures v.Some? <==> exists i :: 0 <= i < |ps| && ps[i].0 == name
    ensures v.Some? ==> (name, v.value) in ps
  {
    if |ps| == 0 then None
    else if ps[0].0 == name then Some(ps[0].1)
    else
      var v := Lookup(ps[1..], name);
      assert forall i :: 1 <= i < |ps| ==> ps[i] == ps[1..][i - 1];
      v
  }

  /** The query parameters the server sees for a requested endpoint. */
  function ServerQuery(endpoint: string): (ps: Params)
    ensures '?' !in endpoint ==> ps == []
  {
    match SplitAtFirst(endpoint, '?').1
    case None => []
    case Some(q) => ParseQuery(q)
  }

  /** `minRelevance` as the route uses it: absent stays absent and an
      integer text stands for its value; other text is read as `parseInt`
      reads it, which is not how SQLite compares it. */
  function RouteMinRelevance(ps: Params): (m: Option<int>)
    ensures Lookup(ps, "minRelevance").None? ==> m.None?
    ensures m.None? <==> Lookup(ps, "minRelevance").None? || ParseInt(Lookup(ps, "minRelevance").value).NaN?
    ensures m.Some? ==> ParseInt(Lookup(ps, "minRelevance").value) == Num(m.value)
  {
    match Lookup(ps, "minRelevance")
    case None => None
    case Some(text) =>
      match ParseInt(text)
      case NaN => None
      case Num(v) => Some(v)
  }

  /** An integer written out in decimal is read back as that integer. */
  lemma IntegerFloorIsRead(ps: Params, v: int)
    requires Lookup(ps, "minRelevance") == Some(ShowInt(v))
    ensures RouteMinRelevance(ps) == Some(v)
  {
    ParseShowInt(v);
  }

  /** A listing path holds no `?`. */
  lemma PathHasNoQuery(campaignId: nat)
    ensures '?' !in "/reddit/posts/" + ShowNat(campaignId)
  {
    var path := "/reddit/posts/" + ShowNat(campaignId);
    assert forall i :: 14 <= i < |path| ==> path[i] == ShowNat(campaignId)[i - 14];
  }

  /** The server takes everything after the first `?` as the query. */
  lemma ServerQueryAfterMark(path: string, q: string)
    requires '?' !in path
    ensures ServerQuery(path + ['?'] + q) == ParseQuery(q)
  {
    SplitAtFirstOccurrence(path, '?', q);
  }

  /** The server parses back exactly the parameters the client built. */
  lemma EndpointCarriesParams(campaignId: nat, f: PostFilters)
    ensures ServerQuery(PostsEndpoint(campaignId, f)) == QueryParams(f)
  {
    var params := QueryParams(f);
    var path := "/reddit/posts/" + ShowNat(campaignId);
    var q := Serialize(params);
    PathHasNoQuery(campaignId);
    if q == "" {
      assert PostsEndpoint(campaignId, f) == path;
      assert SplitAtFirst(path, '?').1.None?;
    } else {
      assert PostsEndpoint(campaignId, f) == path + ['?'] + q;
      ServerQueryAfterMark(path, q);
      ParseSerialize(params);
    }
  }

  /** The relevance floor survives the trip: a value the client leaves out
      is 0, the server's default. */
  lemma FloorSurvives(f: PostFilters)
    ensures RouteMinRelevance(QueryParams(f)).GetOr(0) == f.minRelevance.GetOr(0)
  {
    var params := QueryParams(f);
    if f.minRelevance.Some? && f.minRelevance.value != 0 {
      assert params[0] == ("minRelevance", ShowInt(f.minRelevance.value));
      ParseShowInt(f.minRelevance.value);
    } else {
      assert Lookup(params, "minRelevance").None?;
    }
  }

  /** The subreddit survives the trip when it is non-empty and is absent
      otherwise. */
  lemma SubredditSurvives(f: PostFilters)
    ensures var sub := Lookup(QueryParams(f), "subreddit");
      && ((sub.Some? && sub.value != "") <==> (f.subreddit.Some? && f.subreddit.value != ""))
      && (sub.Some? && sub.value != "" ==> sub == f.subreddit)
  {
    var params := QueryParams(f);
    if f.subreddit.Some? && f.subreddit.value != "" {
      assert params[|params| - 1] == ("subreddit", f.subreddit.value);
      assert forall i :: 0 <= i < |params| - 1 ==> params[i].0 == "minRelevance";
    } else {
      assert forall i :: 0 <= i < |params| ==> params[i].0 == "minRelevance";
    }
  }

  /** The server lists exactly the posts the client's filters describe: a
      relevance of 0 that the client leaves out is the server's default,
      and an empty subreddit it leaves out is no filter on either side. */
  lemma ClientAndServerAgree(rows: seq<Database.PostRow>, campaignId: nat, f: PostFilters)
    ensures var ps := ServerQuery(PostsEndpoint(campaignId, f));
      RedditRoutes.ListPosts(rows, campaignId, RouteMinRelevance(ps), Lookup(ps, "subreddit"))
      == RedditRoutes.ListPosts(rows, campaignId, f.minRelevance, f.subreddit)
  {
    EndpointCarriesParams(campaignId, f);
    FloorSurvives(f);
    SubredditSurvives(f);
    var ps := QueryParams(f);
    RedditRoutes.SameFiltersSameListing(rows, campaignId, RouteMinRelevance(ps), Lookup(ps, "subreddit"), f.minRelevance, f.subreddit);
  }
}
