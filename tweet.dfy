/**
 * The tweet and profile records (tweet.ts, profile.ts), reduced to the fields
 * the analysis reads, with the id helpers shared by the fetch and the stub.
 */
module TweetModel {
  import opened Wrappers

  /** `created_at` is the instant the tweet was written, in seconds since 1970-01-01T00:00Z. */
  datatype Tweet = Tweet(
    id: int,
    createdAt: int,
    inReplyToScreenName: Option<string>,
    hashtags: seq<string>)

  datatype Profile = Profile(id: int, screenName: string, profileImageUrl: string)

  /** The ids of a tweet list, in order. */
  function Ids(tweets: seq<Tweet>): (ids: seq<int>)
    ensures |ids| == |tweets|
    ensures forall i :: 0 <= i < |tweets| ==> ids[i] == tweets[i].id
  {
    seq(|tweets|, i requires 0 <= i < |tweets| => tweets[i].id)
  }

  /** The index of the first tweet with id `id`, -1 when there is none (`findIndex` at line 24 of stub.ts and line 69 of twitterGateway.ts). */
  function FindIndexById(tweets: seq<Tweet>, id: int): (i: int)
    ensures -1 <= i < |tweets|
    ensures i >= 0 ==> tweets[i].id == id && forall j :: 0 <= j < i ==> tweets[j].id != id
    ensures i == -1 <==> forall j :: 0 <= j < |tweets| ==> tweets[j].id != id
  {
    if tweets == [] then -1
    else if tweets[0].id == id then 0
    else
      var rest := FindIndexById(tweets[1..], id);
      if rest == -1 then -1 else rest + 1
  }

  /** No two tweets of the list share an id. */
  ghost predicate DistinctIds(tweets: seq<Tweet>)
  {
    forall i, j :: 0 <= i < j < |tweets| ==> tweets[i].id != tweets[j].id
  }

  /** A slice of a list without repeated ids has none either. */
  lemma DistinctIdsSlice(tweets: seq<Tweet>, lo: nat, hi: nat)
    requires DistinctIds(tweets)
    requires lo <= hi <= |tweets|
    ensures DistinctIds(tweets[lo..hi])
  {
    forall i, j | 0 <= i < j < hi - lo
      ensures tweets[lo..hi][i].id != tweets[lo..hi][j].id
    {
      assert tweets[lo..hi][i] == tweets[lo + i] && tweets[lo..hi][j] == tweets[lo + j];
    }
  }
}
