/**
 * stub.ts: a client that serves a fixed tweet list page by page and a fixed
 * profile. The two JSON files it reads are its parameters here.
 */
module Stub {
  import opened Wrappers
  import opened TweetModel
  import opened Transport
  import opened TwitterGateway

  /** How many tweets a stub page holds at most. */
  const StubPageLimit := 200

  /** Where a page starts: at the tweet whose id is the cursor, or at the top when there is no cursor or no such tweet. */
  function BeginIndex(tweets: seq<Tweet>, maxId: Option<int>): (b: nat)
    ensures b == 0 || b < |tweets|
    ensures maxId.None? || FindIndexById(tweets, maxId.value) == -1 ==> b == 0
    ensures maxId.Some? && FindIndexById(tweets, maxId.value) >= 0 ==>
      b == FindIndexById(tweets, maxId.value) && tweets[b].id == maxId.value
  {
    if maxId.None? then 0
    else
      var found := FindIndexById(tweets, maxId.value);
      if found == -1 then 0 else found
  }

  /** The page for a cursor: up to 200 consecutive tweets, the cursor's own tweet first. */
  function TimelinePage(tweets: seq<Tweet>, maxId: Option<int>): (page: seq<Tweet>)
    ensures |page| <= StubPageLimit
    ensures |page| == if |tweets| - BeginIndex(tweets, maxId) < StubPageLimit then |tweets| - BeginIndex(tweets, maxId) else StubPageLimit
    ensures forall k :: 0 <= k < |page| ==> page[k] == tweets[BeginIndex(tweets, maxId) + k]
  {
    var beginIndex := BeginIndex(tweets, maxId);
    var endIndex := if beginIndex + StubPageLimit < |tweets| then beginIndex + StubPageLimit else |tweets|;
    tweets[beginIndex..endIndex]
  }

  /** The stub's `get`: timeline pages, the profile for either profile endpoint, no callback otherwise. */
  function StubGet(tweets: seq<Tweet>, profile: Profile, endpoint: string, parameters: Options): (reply: Reply)
    ensures endpoint == UserTimeline ==> reply == Timeline(TimelinePage(tweets, parameters.maxId))
    ensures endpoint == VerifyCredentials || endpoint == UsersShow ==> reply == ProfileOf(profile)
    ensures endpoint != UserTimeline && endpoint != VerifyCredentials && endpoint != UsersShow ==> reply.Silent?
  {
    if endpoint == UserTimeline then Timeline(TimelinePage(tweets, parameters.maxId))
    else if endpoint == VerifyCredentials || endpoint == UsersShow then ProfileOf(profile)
    else Silent
  }

  function StubClient(tweets: seq<Tweet>, profile: Profile): Client
  {
    (endpoint, parameters) => StubGet(tweets, profile, endpoint, parameters)
  }

  /** Either profile request resolves with the stub's profile. */
  lemma StubServesProfile(tweets: seq<Tweet>, profile: Profile, screenName: Option<string>)
    ensures GetProfile(StubClient(tweets, profile), screenName) == Resolved(ProfileOf(profile))
  {
  }

  /** With distinct ids, the page for the id of tweet `b` is the slice from `b`. */
  lemma StubPageFrom(tweets: seq<Tweet>, b: nat)
    requires DistinctIds(tweets)
    requires b < |tweets|
    ensures TimelinePage(tweets, Some(tweets[b].id)) ==
      tweets[b..if b + StubPageLimit < |tweets| then b + StubPageLimit else |tweets|]
  {
    var found := FindIndexById(tweets, tweets[b].id);
    assert found == b;
  }

  /** The end of the page that starts at tweet `b`. */
  function PageEnd(tweets: seq<Tweet>, b: nat): (e: nat)
    requires b < |tweets|
    ensures b < e <= |tweets| && e - b <= StubPageLimit
    ensures e == |tweets| || e - b == StubPageLimit
  {
    if b + StubPageLimit < |tweets| then b + StubPageLimit else |tweets|
  }

  /** The end of the page served without a cursor. */
  function FirstPageEnd(tweets: seq<Tweet>): (e: nat)
    ensures e <= |tweets| && e <= StubPageLimit
    ensures e == |tweets| || e == StubPageLimit
  {
    if StubPageLimit < |tweets| then StubPageLimit else |tweets|
  }

  /** Without a cursor the stub serves the first tweets, up to a page's worth. */
  lemma StubFirstPage(tweets: seq<Tweet>)
    ensures TimelinePage(tweets, None) == tweets[..FirstPageEnd(tweets)]
  {
  }

  /**
   * What the walk needs of the stub: the first request gets the first page,
   * and a request whose cursor is the id of tweet `b` gets the page from `b`.
   */
  ghost predicate ServesPages(client: Client, screenName: Option<string>, tweets: seq<Tweet>)
  {
    && Call(client, UserTimeline, TimelineOptions(screenName, None)) == Timeline(tweets[..FirstPageEnd(tweets)])
    && forall b :: 0 <= b < |tweets| ==> ServesPageAt(client, screenName, tweets, b)
  }

  /** The request whose cursor is the id of tweet `b` gets the page from `b`. */
  ghost predicate ServesPageAt(client: Client, screenName: Option<string>, tweets: seq<Tweet>, b: nat)
    requires b < |tweets|
  {
    Call(client, UserTimeline, TimelineOptions(screenName, Some(tweets[b].id))) == Timeline(tweets[b..PageEnd(tweets, b)])
  }

  /** The stub client serves its pages in that way whenever the ids are distinct. */
  lemma StubServesPages(tweets: seq<Tweet>, profile: Profile, screenName: Option<string>)
    requires DistinctIds(tweets)
    ensures ServesPages(StubClient(tweets, profile), screenName, tweets)
  {
    StubFirstPage(tweets);
    forall b | 0 <= b < |tweets|
      ensures ServesPageAt(StubClient(tweets, profile), screenName, tweets, b)
    {
      StubPageFrom(tweets, b);
    }
  }

  /** One page past the last tweet of the page before: its new tweets are appended, its last tweet is the next cursor. */
  lemma PageStep(client: Client, screenName: Option<string>, tweets: seq<Tweet>, b: nat, fuel: nat)
    requires DistinctIds(tweets) && ServesPages(client, screenName, tweets)
    requires b < |tweets| - 1
    requires fuel > 0
    ensures Walk(client, screenName, Some(tweets[b].id), tweets[..b + 1], fuel) ==
      Walk(client, screenName, Some(tweets[PageEnd(tweets, b) - 1].id), tweets[..PageEnd(tweets, b)], fuel - 1)
  {
    var e := PageEnd(tweets, b);
    var page := tweets[b..e];
    assert ServesPageAt(client, screenName, tweets, b);
    assert page[0] == tweets[b];
    assert page[0].id in Ids(tweets[..b + 1]) by {
      assert Ids(tweets[..b + 1])[b] == tweets[b].id;
    }
    assert page[1..] == tweets[b + 1..e];
    assert tweets[..b + 1] + tweets[b + 1..e] == tweets[..e];
    DistinctIdsSlice(tweets, 0, e);
    assert tweets[0..e] == tweets[..e];
    AppendNewFresh(tweets[..b + 1], tweets[b + 1..e]);
    assert AppendNew(tweets[..b + 1], page) == tweets[..e];
    assert page[|page| - 1] == tweets[e - 1];
    WalkContinues(client, screenName, Some(tweets[b].id), tweets[..b + 1], fuel, page);
  }

  /**
   * Once the walk has accumulated the first `e` tweets and its cursor is the
   * id of the last of them, it ends with the whole list, given one request
   * per remaining tweet.
   */
  lemma {:induction false} WalkFrom(client: Client, screenName: Option<string>, tweets: seq<Tweet>, e: nat, fuel: nat)
    requires DistinctIds(tweets) && ServesPages(client, screenName, tweets)
    requires 0 < e <= |tweets|
    requires fuel > |tweets| - e
    ensures Walk(client, screenName, Some(tweets[e - 1].id), tweets[..e], fuel) == Fetched(tweets)
    decreases |tweets| - e
  {
    if e == |tweets| {
      var page := tweets[e - 1..PageEnd(tweets, e - 1)];
      assert ServesPageAt(client, screenName, tweets, e - 1);
      assert tweets[..e] == tweets;
      WalkStops(client, screenName, Some(tweets[e - 1].id), tweets[..e], fuel, page);
    } else {
      PageStep(client, screenName, tweets, e - 1, fuel);
      WalkFrom(client, screenName, tweets, PageEnd(tweets, e - 1), fuel - 1);
    }
  }

  /** The first page is taken whole, and its last tweet becomes the cursor. */
  lemma FirstPageStep(client: Client, screenName: Option<string>, tweets: seq<Tweet>, fuel: nat)
    requires DistinctIds(tweets) && ServesPages(client, screenName, tweets)
    requires 0 < |tweets| && fuel > 0
    ensures Walk(client, screenName, None, [], fuel) ==
      Walk(client, screenName, Some(tweets[FirstPageEnd(tweets) - 1].id), tweets[..FirstPageEnd(tweets)], fuel - 1)
  {
    var page := tweets[..FirstPageEnd(tweets)];
    DistinctIdsSlice(tweets, 0, FirstPageEnd(tweets));
    assert tweets[0..FirstPageEnd(tweets)] == page;
    AppendNewAll(page);
    WalkContinues(client, screenName, None, [], fuel, page);
  }

  /** A client serving pages that way hands over every tweet, in order, once enough requests are allowed. */
  lemma WalkFromTop(client: Client, screenName: Option<string>, tweets: seq<Tweet>, fuel: nat)
    requires DistinctIds(tweets) && ServesPages(client, screenName, tweets)
    requires fuel >= |tweets| + 1
    ensures Walk(client, screenName, None, [], fuel) == Fetched(tweets)
  {
    if |tweets| == 0 {
      WalkStops(client, screenName, None, [], fuel, []);
    } else {
      FirstPageStep(client, screenName, tweets, fuel);
      WalkFrom(client, screenName, tweets, FirstPageEnd(tweets), fuel - 1);
    }
  }

  /** Fetching from the stub returns every stub tweet, in order, once enough requests are allowed. */
  lemma StubFetchesAll(tweets: seq<Tweet>, profile: Profile, screenName: Option<string>, fuel: nat)
    requires DistinctIds(tweets)
    requires fuel >= |tweets| + 1
    ensures Walk(StubClient(tweets, profile), screenName, None, [], fuel) == Fetched(tweets)
  {
    StubServesPages(tweets, profile, screenName);
    WalkFromTop(StubClient(tweets, profile), screenName, tweets, fuel);
  }

  /**
   * Without distinct ids the walk can fail to settle: when the last stub tweet
   * repeats the first one's id and the list fits one page, every request after
   * the first is sent that id as `max_id`, which `findIndex` finds at index 0,
   * so the same page of two or more tweets comes back each time.
   */
  lemma StubRepeatedEndNeverSettles(tweets: seq<Tweet>, profile: Profile, screenName: Option<string>, acc: seq<Tweet>, fuel: nat)
    requires 2 <= |tweets| <= StubPageLimit
    requires tweets[|tweets| - 1].id == tweets[0].id
    ensures Walk(StubClient(tweets, profile), screenName, Some(tweets[0].id), acc, fuel) == Unsettled
    ensures Walk(StubClient(tweets, profile), screenName, None, acc, fuel) == Unsettled
  {
    StubServesWholeList(tweets, profile, screenName, None);
    StubServesWholeList(tweets, profile, screenName, Some(tweets[0].id));
    RepeatedPageNeverSettles(StubClient(tweets, profile), screenName, tweets, acc, fuel);
  }

  /**
   * A client that answers both the first request and every request with the
   * page's first id as cursor by the same page, of two or more tweets whose
   * last id is the first, keeps the walk going until the requests run out.
   */
  lemma {:induction false} RepeatedPageNeverSettles(client: Client, screenName: Option<string>, page: seq<Tweet>, acc: seq<Tweet>, fuel: nat)
    requires |page| >= 2 && page[|page| - 1].id == page[0].id
    requires Call(client, UserTimeline, TimelineOptions(screenName, None)) == Timeline(page)
    requires Call(client, UserTimeline, TimelineOptions(screenName, Some(page[0].id))) == Timeline(page)
    ensures Walk(client, screenName, Some(page[0].id), acc, fuel) == Unsettled
    ensures Walk(client, screenName, None, acc, fuel) == Unsettled
    decreases fuel
  {
    if fuel > 0 {
      WalkContinues(client, screenName, None, acc, fuel, page);
      WalkContinues(client, screenName, Some(page[0].id), acc, fuel, page);
      RepeatedPageNeverSettles(client, screenName, page, AppendNew(acc, page), fuel - 1);
    }
  }

  /** A list that fits one page comes back whole, with no cursor or with the first tweet's id as cursor. */
  lemma StubServesWholeList(tweets: seq<Tweet>, profile: Profile, screenName: Option<string>, maxId: Option<int>)
    requires 1 <= |tweets| <= StubPageLimit
    requires maxId.None? || maxId == Some(tweets[0].id)
    ensures Call(StubClient(tweets, profile), UserTimeline, TimelineOptions(screenName, maxId)) == Timeline(tweets)
  {
    assert BeginIndex(tweets, maxId) == 0;
    assert TimelinePage(tweets, maxId) == tweets;
  }
}
