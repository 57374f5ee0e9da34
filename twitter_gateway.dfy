/**
 * twitterGateway.ts: the profile request and the max-id paging walk over a
 * user's timeline. The recursive callback of `getTweets` is a loop here, and
 * `fuel` bounds how many pages it may request.
 */
module TwitterGateway {
  import opened Wrappers
  import opened TweetModel
  import opened Transport

  /** How many tweets each timeline request asks for. */
  const PageSize := 200

  // ===========================================================================
  // getProfile

  /**
   * The endpoint and options of the profile request: the authenticated user's
   * own profile without options, or `users/show` for the given screen name.
   */
  function ProfileRequest(screenName: Option<string>): (request: (string, Options))
    ensures request.0 == (if screenName.None? then VerifyCredentials else UsersShow)
    ensures request.1 == NoOptions.(screenName := screenName)
  {
    if screenName.None? then (VerifyCredentials, NoOptions)
    else (UsersShow, NoOptions.(screenName := screenName))
  }

  /** How a promise ends: with a value, with an error, or never. */
  datatype Settled<+T> = Resolved(value: T) | Rejected(error: string) | Pending

  /** `getProfile`: one request; an error rejects, any other reply resolves. */
  function GetProfile(client: Client, screenName: Option<string>): (outcome: Settled<Reply>)
    ensures outcome.Rejected? <==> Call(client, ProfileRequest(screenName).0, ProfileRequest(screenName).1).Failed?
    ensures outcome.Pending? <==> Call(client, ProfileRequest(screenName).0, ProfileRequest(screenName).1).Silent?
    ensures outcome.Resolved? ==> outcome.value == Call(client, ProfileRequest(screenName).0, ProfileRequest(screenName).1)
    ensures outcome.Rejected? ==> Call(client, ProfileRequest(screenName).0, ProfileRequest(screenName).1) == Failed(outcome.error)
  {
    var (endpoint, options) := ProfileRequest(screenName);
    match Call(client, endpoint, options)
    case Failed(e) => Rejected(e)
    case Silent => Pending
    case reply => Resolved(reply)
  }

  // ===========================================================================
  // getTweets

  /** The options of every timeline request: fixed flags, plus the screen name and the cursor when given. */
  function TimelineOptions(screenName: Option<string>, maxId: Option<int>): (options: Options)
    ensures options.count == Some(PageSize)
    ensures options.excludeReplies == Some(false) && options.includeRts == Some(false)
    ensures options.trimUser == Some(true)
    ensures options.screenName == screenName && options.maxId == maxId
  {
    Options(screenName, maxId, Some(PageSize), Some(false), Some(false), Some(true))
  }

  /** Lines 68-72: each tweet of the page is pushed unless a tweet with its id is already there. */
  function AppendNew(acc: seq<Tweet>, page: seq<Tweet>): seq<Tweet>
    decreases |page|
  {
    if page == [] then acc
    else AppendNew(if page[0].id in Ids(acc) then acc else acc + [page[0]], page[1..])
  }

  lemma {:induction false} AppendNewKeeps(acc: seq<Tweet>, page: seq<Tweet>)
    ensures |AppendNew(acc, page)| >= |acc| && AppendNew(acc, page)[..|acc|] == acc
    ensures forall t :: t in page ==> t.id in Ids(AppendNew(acc, page))
    ensures DistinctIds(acc) ==> DistinctIds(AppendNew(acc, page))
    decreases |page|
  {
    if page != [] {
      var next := if page[0].id in Ids(acc) then acc else acc + [page[0]];
      AppendNewKeeps(next, page[1..]);
      var r := AppendNew(acc, page);
      assert r[..|next|][..|acc|] == r[..|acc|];
      assert page[0].id in Ids(next) by {
        if page[0].id !in Ids(acc) {
          assert Ids(next)[|acc|] == page[0].id;
        }
      }
      assert Ids(r)[..|next|] == Ids(next);
      forall t | t in page
        ensures t.id in Ids(r)
      {
        if t != page[0] {
          assert t in page[1..];
        }
      }
    }
  }

  /** `t` is a tweet of `page` whose id `acc` lacks, and the first tweet of the page with that id. */
  ghost predicate Picked(acc: seq<Tweet>, page: seq<Tweet>, t: Tweet)
  {
    && t.id !in Ids(acc)
    && FindIndexById(page, t.id) >= 0
    && t == page[FindIndexById(page, t.id)]
  }

  /**
   * What is appended: tweets of the page whose ids were not there before,
   * each the first tweet of the page with its id.
   */
  lemma {:induction false} AppendNewPicks(acc: seq<Tweet>, page: seq<Tweet>)
    ensures forall k :: |acc| <= k < |AppendNew(acc, page)| ==> Picked(acc, page, AppendNew(acc, page)[k])
    decreases |page|, 1
  {
    if page != [] {
      var rest := page[1..];
      var next := if page[0].id in Ids(acc) then acc else acc + [page[0]];
      var r := AppendNew(acc, page);
      assert r == AppendNew(next, rest);
      AppendNewPicks(next, rest);
      AppendNewKeeps(next, rest);
      AppendNewSkipsFirst(acc, page);
      forall k | |acc| <= k < |r|
        ensures Picked(acc, page, r[k])
      {
        if k < |next| {
          assert r[k] == next[k] == page[0];
        } else {
          assert page[FindIndexById(rest, r[k].id) + 1] == rest[FindIndexById(rest, r[k].id)];
        }
      }
    }
  }

  /** The appended tweets keep the order of the page. */
  lemma {:induction false} AppendNewOrder(acc: seq<Tweet>, page: seq<Tweet>)
    ensures var r := AppendNew(acc, page);
      forall k, l :: |acc| <= k < l < |r| ==> FindIndexById(page, r[k].id) < FindIndexById(page, r[l].id)
    decreases |page|
  {
    if page != [] {
      var rest := page[1..];
      var next := if page[0].id in Ids(acc) then acc else acc + [page[0]];
      var r := AppendNew(acc, page);
      assert r == AppendNew(next, rest);
      AppendNewOrder(next, rest);
      AppendNewKeeps(next, rest);
      AppendNewSkipsFirst(acc, page);
      if |next| > |acc| {
        assert r[|acc|] == next[|acc|] == page[0];
      }
    }
  }

  /**
   * The tweets appended after the page's first one was handled carry other ids
   * than it and than `acc`, so they sit one place later in the page than in its rest.
   */
  lemma AppendNewSkipsFirst(acc: seq<Tweet>, page: seq<Tweet>)
    requires page != []
    ensures var next := if page[0].id in Ids(acc) then acc else acc + [page[0]];
      var r := AppendNew(next, page[1..]);
      forall k :: |next| <= k < |r| ==>
        && r[k].id !in Ids(acc) && r[k].id != page[0].id
        && FindIndexById(page, r[k].id) == FindIndexById(page[1..], r[k].id) + 1
    decreases |page|, 0
  {
    var rest := page[1..];
    var next := if page[0].id in Ids(acc) then acc else acc + [page[0]];
    var r := AppendNew(next, rest);
    AppendNewPicks(next, rest);
    assert Ids(next)[..|acc|] == Ids(acc);
    assert page[0].id in Ids(next) by {
      if page[0].id !in Ids(acc) {
        assert Ids(next)[|acc|] == page[0].id;
      }
    }
    forall k | |next| <= k < |r|
      ensures r[k].id !in Ids(acc) && r[k].id != page[0].id
      ensures FindIndexById(page, r[k].id) == FindIndexById(rest, r[k].id) + 1
    {
      assert Picked(next, rest, r[k]);
    }
  }

  /** Tweets none of whose ids has been seen are all appended, in order. */
  lemma {:induction false} AppendNewFresh(acc: seq<Tweet>, page: seq<Tweet>)
    requires DistinctIds(acc + page)
    ensures AppendNew(acc, page) == acc + page
    decreases |page|
  {
    if page != [] {
      assert (acc + page)[|acc|] == page[0];
      assert page[0].id !in Ids(acc) by {
        forall i | 0 <= i < |acc|
          ensures Ids(acc)[i] != page[0].id
        {
          assert (acc + page)[i] == acc[i];
        }
      }
      assert acc + [page[0]] + page[1..] == acc + page;
      AppendNewFresh(acc + [page[0]], page[1..]);
    }
  }

  /** From nothing, a page without repeated ids is taken whole. */
  lemma AppendNewAll(page: seq<Tweet>)
    requires DistinctIds(page)
    ensures AppendNew([], page) == page
  {
    assert [] + page == page;
    AppendNewFresh([], page);
  }

  /** How `getTweets` ends. */
  datatype FetchOutcome =
    | Fetched(tweets: seq<Tweet>)
    | FetchRejected(error: string)
    | Unsettled   // the callback never came back, or the fuel ran out first

  /**
   * The walk from cursor `maxId` with `acc` accumulated: an error rejects with
   * no tweets; an empty page, or a lone tweet whose id is the cursor itself,
   * ends it with `acc`; otherwise the page's new tweets are appended and the
   * next request is made with the id of the page's last tweet.
   */
  function Walk(client: Client, screenName: Option<string>, maxId: Option<int>, acc: seq<Tweet>, fuel: nat): FetchOutcome
    decreases fuel
  {
    if fuel == 0 then Unsettled
    else
      var reply := Call(client, UserTimeline, TimelineOptions(screenName, maxId));
      if reply.Timeline? && !EndsWalk(reply.tweets, maxId) then
        Walk(client, screenName, Some(reply.tweets[|reply.tweets| - 1].id), AppendNew(acc, reply.tweets), fuel - 1)
      else Settle(reply, acc)
  }

  /**
   * A page ends the walk when it is empty, or holds only the cursor's own
   * tweet (a lone tweet is also the last one, so `page[0]` is `lodash.last(page)` there).
   */
  predicate EndsWalk(page: seq<Tweet>, maxId: Option<int>)
  {
    |page| == 0 || (|page| == 1 && maxId == Some(page[0].id))
  }

  /** How a reply that does not lead to another request settles the walk. */
  function Settle(reply: Reply, acc: seq<Tweet>): (outcome: FetchOutcome)
    ensures outcome.FetchRejected? <==> reply.Failed?
    ensures outcome.FetchRejected? ==> reply == Failed(outcome.error)
    ensures reply.Timeline? <==> outcome == Fetched(acc)
    ensures !reply.Failed? && !reply.Timeline? ==> outcome == Unsettled
  {
    match reply
    case Failed(e) => FetchRejected(e)
    case Timeline(_) => Fetched(acc)
    case _ => Unsettled
  }

  /** A reply that is not a continuing page settles the walk. */
  lemma WalkSettles(client: Client, screenName: Option<string>, maxId: Option<int>, acc: seq<Tweet>, fuel: nat)
    requires fuel > 0
    requires var reply := Call(client, UserTimeline, TimelineOptions(screenName, maxId));
      !reply.Timeline? || EndsWalk(reply.tweets, maxId)
    ensures Walk(client, screenName, maxId, acc, fuel) == Settle(Call(client, UserTimeline, TimelineOptions(screenName, maxId)), acc)
  {
  }

  /** One step of the walk: a page that neither is empty nor repeats the cursor alone moves the cursor to its last tweet. */
  lemma WalkContinues(client: Client, screenName: Option<string>, maxId: Option<int>, acc: seq<Tweet>, fuel: nat, page: seq<Tweet>)
    requires fuel > 0
    requires Call(client, UserTimeline, TimelineOptions(screenName, maxId)) == Timeline(page)
    requires !EndsWalk(page, maxId)
    ensures Walk(client, screenName, maxId, acc, fuel) ==
      Walk(client, screenName, Some(page[|page| - 1].id), AppendNew(acc, page), fuel - 1)
  {
  }

  /** The walk ends with what it has when the page is empty, or is the cursor's own tweet alone. */
  lemma WalkStops(client: Client, screenName: Option<string>, maxId: Option<int>, acc: seq<Tweet>, fuel: nat, page: seq<Tweet>)
    requires fuel > 0
    requires Call(client, UserTimeline, TimelineOptions(screenName, maxId)) == Timeline(page)
    requires EndsWalk(page, maxId)
    ensures Walk(client, screenName, maxId, acc, fuel) == Fetched(acc)
  {
  }

  /** `r` starts with `acc`, and keeps its ids distinct if `acc`'s were. */
  ghost predicate Extends(acc: seq<Tweet>, r: seq<Tweet>)
  {
    |r| >= |acc| && r[..|acc|] == acc && (DistinctIds(acc) ==> DistinctIds(r))
  }

  lemma AppendNewExtends(acc: seq<Tweet>, page: seq<Tweet>)
    ensures Extends(acc, AppendNew(acc, page))
  {
    AppendNewKeeps(acc, page);
  }

  lemma ExtendsTransitive(a: seq<Tweet>, b: seq<Tweet>, c: seq<Tweet>)
    requires Extends(a, b) && Extends(b, c)
    ensures Extends(a, c)
  {
    assert c[..|b|][..|a|] == c[..|a|];
  }

  /** The tweets accumulated so far always open the final result, and no id is repeated. */
  lemma {:induction false} WalkKeepsAccumulated(
    client: Client, screenName: Option<string>, maxId: Option<int>, acc: seq<Tweet>, fuel: nat)
    requires Walk(client, screenName, maxId, acc, fuel).Fetched?
    ensures Extends(acc, Walk(client, screenName, maxId, acc, fuel).tweets)
    decreases fuel
  {
    assert fuel > 0;
    var reply := Call(client, UserTimeline, TimelineOptions(screenName, maxId));
    if reply.Timeline? && !EndsWalk(reply.tweets, maxId) {
      var response := reply.tweets;
      var next := AppendNew(acc, response);
      var cursor := Some(response[|response| - 1].id);
      WalkContinues(client, screenName, maxId, acc, fuel, response);
      AppendNewExtends(acc, response);
      WalkKeepsAccumulated(client, screenName, cursor, next, fuel - 1);
      ExtendsTransitive(acc, next, Walk(client, screenName, cursor, next, fuel - 1).tweets);
    } else {
      WalkSettles(client, screenName, maxId, acc, fuel);
      assert acc[..|acc|] == acc;
    }
  }

  /** A completed fetch never returns two tweets with the same id. */
  lemma FetchedDistinct(client: Client, screenName: Option<string>, fuel: nat)
    ensures Walk(client, screenName, None, [], fuel).Fetched? ==>
      DistinctIds(Walk(client, screenName, None, [], fuel).tweets)
  {
    if Walk(client, screenName, None, [], fuel).Fetched? {
      WalkKeepsAccumulated(client, screenName, None, [], fuel);
    }
  }

  /** Every id of a prefix is an id of the whole. */
  lemma PrefixIds(prefix: seq<Tweet>, whole: seq<Tweet>)
    requires |prefix| <= |whole| && whole[..|prefix|] == prefix
    ensures forall id :: id in Ids(prefix) ==> id in Ids(whole)
  {
    assert Ids(whole)[..|prefix|] == Ids(prefix);
  }

  /**
   * Every tweet of the page a request returns ends up in the result, the lone
   * repeated tweet that ends the walk included, as long as the cursor is the
   * id of a tweet already accumulated.
   */
  lemma WalkReturnsPage(client: Client, screenName: Option<string>, maxId: Option<int>, acc: seq<Tweet>, fuel: nat)
    requires maxId.Some? ==> maxId.value in Ids(acc)
    requires Walk(client, screenName, maxId, acc, fuel).Fetched?
    requires Call(client, UserTimeline, TimelineOptions(screenName, maxId)).Timeline?
    ensures forall t :: t in Call(client, UserTimeline, TimelineOptions(screenName, maxId)).tweets ==>
      t.id in Ids(Walk(client, screenName, maxId, acc, fuel).tweets)
  {
    var response := Call(client, UserTimeline, TimelineOptions(screenName, maxId)).tweets;
    var r := Walk(client, screenName, maxId, acc, fuel).tweets;
    if EndsWalk(response, maxId) {
      WalkStops(client, screenName, maxId, acc, fuel, response);
    } else {
      var next := AppendNew(acc, response);
      WalkContinues(client, screenName, maxId, acc, fuel, response);
      AppendNewKeeps(acc, response);
      WalkKeepsAccumulated(client, screenName, Some(response[|response| - 1].id), next, fuel - 1);
      PrefixIds(next, r);
    }
  }

  /** Lines 68-72 as the loop they are. */
  method AppendUnseen(result: seq<Tweet>, response: seq<Tweet>) returns (next: seq<Tweet>)
    ensures next == AppendNew(result, response)
  {
    next := result;
    for j := 0 to |response|
      invariant AppendNew(next, response[j..]) == AppendNew(result, response)
    {
      assert response[j..][1..] == response[j + 1..];
      if FindIndexById(next, response[j].id) == -1 {
        next := next + [response[j]];
      }
    }
  }

  /** The cursor a reply hands to the next request: the id of the last tweet of a non-empty page. */
  function NextCursor(reply: Reply): (cursor: Option<int>)
    ensures cursor.Some? <==> reply.Timeline? && |reply.tweets| > 0
    ensures cursor.Some? ==> cursor.value == reply.tweets[|reply.tweets| - 1].id
  {
    if reply.Timeline? && |reply.tweets| > 0 then Some(reply.tweets[|reply.tweets| - 1].id) else None
  }

  /** Request `next` is the one made after request `previous` was answered with a non-empty page. */
  predicate Follows(client: Client, screenName: Option<string>, previous: Options, next: Options)
  {
    var cursor := NextCursor(Call(client, UserTimeline, previous));
    cursor.Some? && next == TimelineOptions(screenName, cursor)
  }

  /** Every request of the log follows the one before it. */
  ghost predicate ChainedLog(client: Client, screenName: Option<string>, requests: seq<Options>)
  {
    forall i, j :: 0 <= i < j < |requests| && j == i + 1 ==> Follows(client, screenName, requests[i], requests[j])
  }

  /**
   * The requests made so far: the first without a cursor, each later one
   * following the one before, and `maxId` the cursor the last reply handed over.
   */
  ghost predicate RequestLog(client: Client, screenName: Option<string>, requests: seq<Options>, maxId: Option<int>)
  {
    && (|requests| == 0 ==> maxId.None?)
    && (|requests| > 0 ==> requests[0] == TimelineOptions(screenName, None))
    && (|requests| > 0 ==> maxId.Some? && maxId == NextCursor(Call(client, UserTimeline, requests[|requests| - 1])))
    && ChainedLog(client, screenName, requests)
  }

  /** The next request, made with the cursor the last reply handed over, keeps the log chained. */
  lemma LogExtends(client: Client, screenName: Option<string>, requests: seq<Options>, maxId: Option<int>)
    requires RequestLog(client, screenName, requests, maxId)
    ensures var log := requests + [TimelineOptions(screenName, maxId)];
      && log[0] == TimelineOptions(screenName, None)
      && ChainedLog(client, screenName, log)
      && (NextCursor(Call(client, UserTimeline, log[|log| - 1])).Some? ==>
            RequestLog(client, screenName, log, NextCursor(Call(client, UserTimeline, log[|log| - 1]))))
  {
    var log := requests + [TimelineOptions(screenName, maxId)];
    forall i, j | 0 <= i < j < |log| && j == i + 1
      ensures Follows(client, screenName, log[i], log[j])
    {
      if j < |requests| {
        assert log[i] == requests[i] && log[j] == requests[j];
      }
    }
  }

  /**
   * One request of the walk (lines 47-75): the page for cursor `maxId`, and
   * when it does not end the walk, the tweets with its new ones appended.
   */
  method FetchPage(client: Client, screenName: Option<string>, maxId: Option<int>, result: seq<Tweet>, remaining: nat)
    returns (reply: Reply, next: seq<Tweet>)
    requires remaining > 0
    ensures reply == Call(client, UserTimeline, TimelineOptions(screenName, maxId))
    ensures !reply.Timeline? || EndsWalk(reply.tweets, maxId) ==>
      Walk(client, screenName, maxId, result, remaining) == Settle(reply, result)
    ensures reply.Timeline? && !EndsWalk(reply.tweets, maxId) ==>
      && NextCursor(reply).Some?
      && next == AppendNew(result, reply.tweets)
      && Walk(client, screenName, maxId, result, remaining) == Walk(client, screenName, NextCursor(reply), next, remaining - 1)
  {
    reply := Call(client, UserTimeline, TimelineOptions(screenName, maxId));
    next := result;
    if !reply.Timeline? || EndsWalk(reply.tweets, maxId) {
      WalkSettles(client, screenName, maxId, result, remaining);
      return;
    }
    var response := reply.tweets;
    WalkContinues(client, screenName, maxId, result, remaining, response);
    next := AppendUnseen(result, response);
  }

  /**
   * `getTweets`, with the requests it issued: the first without a cursor, each
   * later one with the id of the last tweet of the page before; an error
   * rejects the whole fetch; the tweets come back without repeated ids.
   */
  method GetTweets(client: Client, screenName: Option<string>, fuel: nat)
    returns (outcome: FetchOutcome, requests: seq<Options>)
    ensures outcome == Walk(client, screenName, None, [], fuel)
    ensures outcome.Fetched? ==> DistinctIds(outcome.tweets)
    ensures |requests| <= fuel
    ensures fuel > 0 ==> |requests| >= 1 && requests[0] == TimelineOptions(screenName, None)
    ensures ChainedLog(client, screenName, requests)
    ensures outcome.FetchRejected? ==>
      |requests| > 0 && Call(client, UserTimeline, requests[|requests| - 1]) == Failed(outcome.error)
  {
    var result: seq<Tweet> := [];
    var maxId: Option<int> := None;
    var remaining := fuel;
    requests := [];
    outcome := Unsettled;
    FetchedDistinct(client, screenName, fuel);
    while remaining > 0
      invariant Walk(client, screenName, maxId, result, remaining) == Walk(client, screenName, None, [], fuel)
      invariant |requests| + remaining == fuel
      invariant RequestLog(client, screenName, requests, maxId)
    {
      LogExtends(client, screenName, requests, maxId);
      requests := requests + [TimelineOptions(screenName, maxId)];
      var reply, next := FetchPage(client, screenName, maxId, result, remaining);
      if !reply.Timeline? || EndsWalk(reply.tweets, maxId) {
        outcome := Settle(reply, result);
        return;
      }
      result, maxId, remaining := next, NextCursor(reply), remaining - 1;
    }
  }
}
