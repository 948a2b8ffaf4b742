/**
 * The rows of the two hosted tables the application uses, `waitlist_entries`
 * and `referrals`, the partial updates it sends, and the ways a call to the
 * hosted database can go wrong.
 */
module Schema {
  import opened Common

  /** A row of `waitlist_entries` (the `WaitlistEntry` interface); nullable columns are options. */
  datatype Entry = Entry(
    id: string,
    email: string,
    name: Option<string>,
    walletAddress: Option<string>,
    twitterUsername: Option<string>,
    discordUsername: Option<string>,
    referralCode: string,
    referredByCode: Option<string>,
    twitterFollowed: bool,
    discordJoined: bool,
    emailConnected: bool,
    createdAt: string,
    updatedAt: string)

  /** A row of `referrals`: who brought whom. */
  datatype Referral = Referral(referrerEmail: string, referredEmail: string)

  /**
   * A `Partial<WaitlistEntry>` as the application builds it: the columns it
   * ever updates, each either present with a value or absent.
   */
  datatype Patch = Patch(
    walletAddress: Option<string>,
    twitterUsername: Option<string>,
    twitterFollowed: Option<bool>,
    discordUsername: Option<string>,
    discordJoined: Option<bool>,
    updatedAt: Option<string>)

  const NoChanges := Patch(None, None, None, None, None, None)

  /** The patch the wallet dialog sends. */
  function WalletPatch(address: string): Patch {
    NoChanges.(walletAddress := Some(address))
  }

  /** The patch `verifyTwitterFollow` sends. */
  function TwitterPatch(username: string, now: string): Patch {
    NoChanges.(twitterUsername := Some(username), twitterFollowed := Some(true), updatedAt := Some(now))
  }

  /** The patch `verifyDiscordJoin` sends. */
  function DiscordPatch(username: string, now: string): Patch {
    NoChanges.(discordUsername := Some(username), discordJoined := Some(true), updatedAt := Some(now))
  }

  /** What an `update(patch)` does to one row: the columns in the patch take its values, the others stay. */
  function Apply(e: Entry, p: Patch): (r: Entry)
    ensures r.id == e.id && r.email == e.email && r.name == e.name && r.referralCode == e.referralCode
    ensures r.referredByCode == e.referredByCode && r.emailConnected == e.emailConnected && r.createdAt == e.createdAt
    ensures r.walletAddress == (if p.walletAddress.Some? then p.walletAddress else e.walletAddress)
    ensures r.twitterUsername == (if p.twitterUsername.Some? then p.twitterUsername else e.twitterUsername)
    ensures r.discordUsername == (if p.discordUsername.Some? then p.discordUsername else e.discordUsername)
    ensures r.twitterFollowed == p.twitterFollowed.GetOr(e.twitterFollowed)
    ensures r.discordJoined == p.discordJoined.GetOr(e.discordJoined)
    ensures r.updatedAt == p.updatedAt.GetOr(e.updatedAt)
  {
    e.(walletAddress := if p.walletAddress.Some? then p.walletAddress else e.walletAddress,
       twitterUsername := if p.twitterUsername.Some? then p.twitterUsername else e.twitterUsername,
       twitterFollowed := p.twitterFollowed.GetOr(e.twitterFollowed),
       discordUsername := if p.discordUsername.Some? then p.discordUsername else e.discordUsername,
       discordJoined := p.discordJoined.GetOr(e.discordJoined),
       updatedAt := p.updatedAt.GetOr(e.updatedAt))
  }

  /** Sending the same update twice leaves the row as sending it once. */
  lemma ApplyIdempotent(e: Entry, p: Patch)
    ensures Apply(Apply(e, p), p) == Apply(e, p)
  {
  }

  /** An update with no columns changes nothing. */
  lemma ApplyNoChanges(e: Entry)
    ensures Apply(e, NoChanges) == e
  {
  }

  /**
   * The outcome of one database call. A query that reports an error carries
   * a PostgREST code and message; a call can also throw, with an `Error`
   * (which has a message) or with some other value.
   */
  datatype Fault = NoFault | QueryError(code: string, message: string) | Threw(message: string) | ThrewNonError

  /** The message the application reports for a fault: `error.message`, or `'Unknown error'` for a non-`Error`. */
  function ErrorText(f: Fault): (m: string)
    requires !f.NoFault?
    ensures f.ThrewNonError? ==> m == "Unknown error"
  {
    match f
    case QueryError(_, message) => message
    case Threw(message) => message
    case ThrewNonError => "Unknown error"
  }
}
