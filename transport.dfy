/**
 * The capability the gateway is given: `client.get(endpoint, options, callback)`
 * as a function from an endpoint and its options to what the callback receives.
 */
module Transport {
  import opened Wrappers
  import opened TweetModel

  /** The request parameters either endpoint family may carry; `None` means the key is absent. */
  datatype Options = Options(
    screenName: Option<string>,
    maxId: Option<int>,
    count: Option<int>,
    excludeReplies: Option<bool>,
    includeRts: Option<bool>,
    trimUser: Option<bool>)

  /** `{}` */
  const NoOptions: Options := Options(None, None, None, None, None, None)

  /**
   * What the callback is called with: an error, a tweet array, a profile, or
   * nothing at all (`Silent`: the callback is never invoked).
   */
  datatype Reply =
    | Failed(error: string)
    | Timeline(tweets: seq<Tweet>)
    | ProfileOf(profile: Profile)
    | Silent

  type Client = (string, Options) -> Reply

  /** `client.get(endpoint, options, callback)`: what the callback receives. */
  function Call(client: Client, endpoint: string, options: Options): Reply
  {
    client(endpoint, options)
  }

  const UserTimeline := "statuses/user_timeline"
  const VerifyCredentials := "account/verify_credentials"
  const UsersShow := "users/show"
}
