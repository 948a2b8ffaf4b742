/**
 * The session record the pages keep in the browser's local storage under the
 * key `waitlist_user`: a JSON object that each handler reads, spreads and
 * writes back field by field.
 */
module Session {
  import opened Common
  import opened Schema

  /** The JSON values the record holds: the application only stores strings, booleans and null. */
  datatype Json = JNull | JBool(b: bool) | JStr(s: string)

  /** The keys the record holds: the snake_case columns of `waitlist_entries`, `id` to `updated_at`. */
  datatype Key =
    | Id | Email | Name | WalletAddress | TwitterUsername | DiscordUsername | ReferralCode
    | ReferredByCode | TwitterFollowed | DiscordJoined | EmailConnected | CreatedAt | UpdatedAt

  /** A parsed `waitlist_user` object. */
  type Record = map<Key, Json>

  /** `record.key`: a missing key reads as `undefined`, which behaves as `null` everywhere it is used. */
  function Field(r: Record, key: Key): (v: Json)
    ensures key !in r ==> v == JNull
  {
    if key in r then r[key] else JNull
  }

  /** JavaScript truthiness. */
  predicate Truthy(v: Json) {
    match v
    case JNull => false
    case JBool(b) => b
    case JStr(s) => s != ""
  }

  /** `a || b`: the first operand when it is truthy, else the second. */
  function Or(a: Json, b: Json): (r: Json)
    ensures Truthy(r) <==> Truthy(a) || Truthy(b)
    ensures r == a || r == b
    ensures Truthy(a) ==> r == a
  {
    if Truthy(a) then a else b
  }

  /** How a value renders in a template literal or a query filter: `String(v)`. */
  function Text(v: Json): (t: string)
    ensures v.JStr? ==> t == v.s
  {
    match v
    case JNull => "null"
    case JBool(b) => if b then "true" else "false"
    case JStr(s) => s
  }

  /** A nullable string column as JSON. */
  function Nullable(o: Option<string>): (v: Json)
    ensures Truthy(v) <==> o.Some? && o.value != ""
  {
    match o
    case None => JNull
    case Some(s) => JStr(s)
  }

  /** `JSON.stringify` of a full row, read back: every column under its snake_case name. */
  function EntryRecord(e: Entry): (r: Record)
    ensures Field(r, Key.Email) == JStr(e.email)
    ensures Field(r, Key.ReferralCode) == JStr(e.referralCode)
  {
    map[
      Key.Id := JStr(e.id),
      Key.Email := JStr(e.email),
      Key.Name := Nullable(e.name),
      Key.WalletAddress := Nullable(e.walletAddress),
      Key.TwitterUsername := Nullable(e.twitterUsername),
      Key.DiscordUsername := Nullable(e.discordUsername),
      Key.ReferralCode := JStr(e.referralCode),
      Key.ReferredByCode := Nullable(e.referredByCode),
      Key.TwitterFollowed := JBool(e.twitterFollowed),
      Key.DiscordJoined := JBool(e.discordJoined),
      Key.EmailConnected := JBool(e.emailConnected),
      Key.CreatedAt := JStr(e.createdAt),
      Key.UpdatedAt := JStr(e.updatedAt)]
  }

  /** `if (userData) { const parsedData = JSON.parse(userData); if (parsedData.email) ... }`: a record with a truthy email. */
  predicate HasStoredEmail(stored: Option<Record>) {
    stored.Some? && Truthy(Field(stored.value, Key.Email))
  }

  /** The email a handler sends to the database: the stored value as the query filter renders it. */
  function StoredEmail(stored: Option<Record>): string
    requires HasStoredEmail(stored)
  {
    Text(Field(stored.value, Key.Email))
  }

  /** `{...r, wallet_address: address, updated_at: now}`. */
  function WithWallet(r: Record, address: string, now: string): (r': Record)
    ensures Field(r', Key.WalletAddress) == JStr(address) && Field(r', Key.UpdatedAt) == JStr(now)
    ensures r'.Keys == r.Keys + {Key.WalletAddress, Key.UpdatedAt}
    ensures forall key | key in r && key != Key.WalletAddress && key != Key.UpdatedAt :: r'[key] == r[key]
  {
    r[Key.WalletAddress := JStr(address)][Key.UpdatedAt := JStr(now)]
  }

  /** `{...r, twitter_username: username, twitter_followed: true, updated_at: now}`. */
  function WithTwitter(r: Record, username: string, now: string): (r': Record)
    ensures Field(r', Key.TwitterUsername) == JStr(username) && Field(r', Key.TwitterFollowed) == JBool(true)
    ensures Field(r', Key.UpdatedAt) == JStr(now)
    ensures r'.Keys == r.Keys + {Key.TwitterUsername, Key.TwitterFollowed, Key.UpdatedAt}
    ensures forall key | key in r && key != Key.TwitterUsername && key != Key.TwitterFollowed && key != Key.UpdatedAt ::
      r'[key] == r[key]
  {
    r[Key.TwitterUsername := JStr(username)][Key.TwitterFollowed := JBool(true)][Key.UpdatedAt := JStr(now)]
  }

  /** `{...r, discord_username: username, discord_joined: true, updated_at: now}`. */
  function WithDiscord(r: Record, username: string, now: string): (r': Record)
    ensures Field(r', Key.DiscordUsername) == JStr(username) && Field(r', Key.DiscordJoined) == JBool(true)
    ensures Field(r', Key.UpdatedAt) == JStr(now)
    ensures r'.Keys == r.Keys + {Key.DiscordUsername, Key.DiscordJoined, Key.UpdatedAt}
    ensures forall key | key in r && key != Key.DiscordUsername && key != Key.DiscordJoined && key != Key.UpdatedAt ::
      r'[key] == r[key]
  {
    r[Key.DiscordUsername := JStr(username)][Key.DiscordJoined := JBool(true)][Key.UpdatedAt := JStr(now)]
  }

  /** The `waitlist_user` slot of the browser's local storage; `None` when nothing is stored. */
  class LocalStorage {
    var waitlistUser: Option<Record>

    constructor (initial: Option<Record>)
      ensures waitlistUser == initial
    {
      waitlistUser := initial;
    }
  }
}
