/**
 * The `useWaitlist` hook of `src/hooks/useWaitlist.ts`: the wallet-address
 * check, the referral-code derivation, sign-up with its best-effort referral
 * row, the guarded updates, and the read operations with their error
 * fallbacks.
 */
module UseWaitlist {
  import opened Common
  import opened JsText
  import opened JsNumber
  import opened Base64
  import opened Schema
  import opened SupabaseUtils

  // ---------------------------------------------------------------- wallet address

  /** A hand-written scan for `[a-fA-F0-9]*`. */
  predicate IsHexRun(s: string) {
    s == [] || (IsHexDigit(s[0]) && IsHexRun(s[1..]))
  }

  lemma {:induction false} HexRunAll(s: string)
    ensures IsHexRun(s) <==> forall k | 0 <= k < |s| :: IsHexDigit(s[k])
  {
    if s != [] {
      HexRunAll(s[1..]);
      assert forall k | 1 <= k < |s| :: s[k] == s[1..][k - 1];
    }
  }

  /**
   * `validateWalletAddress`, the regex `^0x[a-fA-F0-9]{40}$`: an address is
   * accepted exactly when it is `0x` followed by 40 hexadecimal digits of
   * either case.
   */
  predicate ValidateWalletAddress(address: string): (r: bool)
    ensures r <==> |address| == 42 && address[..2] == "0x" && forall k | 2 <= k < 42 :: IsHexDigit(address[k])
  {
    if |address| == 42 then
      HexRunAll(address[2..]);
      assert forall k | 2 <= k < 42 :: address[k] == address[2..][k - 2];
      address[0] == '0' && address[1] == 'x' && IsHexRun(address[2..])
    else false
  }

  // ---------------------------------------------------------------- referral code

  /** The Latin-1 bytes of a string, as `btoa` reads it; `None` when some character is above U+00FF. */
  function Latin1Bytes(s: string): (r: Option<seq<Byte>>)
    ensures r.Some? <==> forall k | 0 <= k < |s| :: s[k] as int < 256
    ensures r.Some? ==> |r.value| == |s| && forall k | 0 <= k < |s| :: r.value[k] == s[k] as int
  {
    if s == [] then Some([])
    else if s[0] as int >= 256 then None
    else match Latin1Bytes(s[1..])
      case None => None
      case Some(rest) => Some([s[0] as int as Byte] + rest)
  }

  /** `btoa(s)`; `None` where `btoa` throws `InvalidCharacterError`. */
  function Btoa(s: string): (r: Option<string>)
    ensures r.Some? <==> Latin1Bytes(s).Some?
    ensures r.Some? ==> r.value == Encode(Latin1Bytes(s).value)
  {
    match Latin1Bytes(s)
    case None => None
    case Some(bs) => Some(Encode(bs))
  }

  /** One character of `.replace(/[/+=]/g, 'x')`. */
  function ScrubChar(c: char): char {
    if c == '/' || c == '+' || c == '=' then 'x' else c
  }

  /** `.replace(/[/+=]/g, 'x')`. */
  function Scrub(s: string): (r: string)
    ensures |r| == |s| && forall k | 0 <= k < |s| :: r[k] == ScrubChar(s[k])
  {
    if s == [] then [] else [ScrubChar(s[0])] + Scrub(s[1..])
  }

  /**
   * `btoa(email).substring(0, 8).replace(/[/+=]/g, 'x')`; `None` where `btoa`
   * throws. The code is the first characters of the encoding, at most 8, each
   * scrubbed.
   */
  function ReferralCode(email: string): (r: Option<string>)
    ensures r.Some? <==> Btoa(email).Some?
    ensures r.Some? ==> |r.value| == Min(8, |Btoa(email).value|)
    ensures r.Some? ==> forall k | 0 <= k < |r.value| :: r.value[k] == ScrubChar(Btoa(email).value[k])
  {
    match Btoa(email)
    case None => None
    case Some(b) => Some(Scrub(Substring(b, 0, 8)))
  }

  /** The code exists exactly for Latin-1 emails, has at most 8 characters, and all of them are ASCII letters or digits. */
  lemma ReferralCodeShape(email: string)
    ensures ReferralCode(email).Some? <==> forall k | 0 <= k < |email| :: email[k] as int < 256
    ensures ReferralCode(email).Some? ==>
      var code := ReferralCode(email).value;
      |code| <= 8 && forall k | 0 <= k < |code| :: IsAsciiAlnum(code[k])
  {
    if Btoa(email).Some? {
      var b := Btoa(email).value;
      var t := Substring(b, 0, 8);
      assert t == b[..|t|];
      assert forall k | 0 <= k < |t| :: IsEncodingChar(t[k]) by {
        forall k | 0 <= k < |t| ensures IsEncodingChar(t[k]) {
          assert t[k] == b[k];
        }
      }
    }
  }

  /** Every Latin-1 email of four or more characters gets a code of exactly 8 characters. */
  lemma ReferralCodeLength(email: string)
    requires |email| >= 4 && forall k | 0 <= k < |email| :: email[k] as int < 256
    ensures ReferralCode(email).Some? && |ReferralCode(email).value| == 8
  {
    var b := Btoa(email).value;
    assert |b| == 4 * ((|email| + 2) / 3);
    assert |b| >= 8;
  }

  /** The code depends on the first six characters only: emails that share them share the code. */
  lemma ReferralCodeSharedPrefix(e1: string, e2: string)
    requires |e1| >= 6 && |e2| >= 6 && e1[..6] == e2[..6]
    requires forall k | 0 <= k < |e1| :: e1[k] as int < 256
    requires forall k | 0 <= k < |e2| :: e2[k] as int < 256
    ensures ReferralCode(e1).Some? && ReferralCode(e1) == ReferralCode(e2)
  {
    var b1, b2 := Latin1Bytes(e1).value, Latin1Bytes(e2).value;
    assert forall k | 0 <= k < 6 :: b1[k] == b2[k] by {
      forall k | 0 <= k < 6 ensures b1[k] == b2[k] {
        assert e1[k] == e1[..6][k] == e2[..6][k] == e2[k];
      }
    }
    FirstEightChars(b1);
    FirstEightChars(b2);
    assert Substring(Encode(b1), 0, 8) == Encode(b1)[..8];
    assert Substring(Encode(b2), 0, 8) == Encode(b2)[..8];
  }

  /** Two different sign-ups that receive the same referral code. */
  lemma ReferralCodeCollision()
    ensures "alice@example.com" != "alice@example.org"
    ensures ReferralCode("alice@example.com") == ReferralCode("alice@example.org")
  {
    var e1, e2 := "alice@example.com", "alice@example.org";
    assert e1[..6] == e2[..6] == "alice@";
    ReferralCodeSharedPrefix(e1, e2);
  }

  // ---------------------------------------------------------------- joining

  /** `x || null` on an optional string argument: absent and empty both become null. */
  function OrNull(s: Option<string>): (r: Option<string>)
    ensures r.Some? <==> s.Some? && s.value != ""
    ensures r.Some? ==> r == s
  {
    if s.Some? && s.value != "" then s else None
  }

  /**
   * The row that the insert of `joinWaitlist` creates. The columns it does not
   * send take the table defaults assumed here: no socials, flags false,
   * `created_at` the insertion time.
   */
  function NewEntry(id: string, email: string, name: Option<string>, referredByCode: Option<string>,
                    walletAddress: Option<string>, code: string, now: string): (e: Entry)
    ensures e.email == email && e.referralCode == code
    ensures e.name == OrNull(name) && e.walletAddress == OrNull(walletAddress) && e.referredByCode == OrNull(referredByCode)
    ensures !e.twitterFollowed && !e.discordJoined && e.twitterUsername.None? && e.discordUsername.None?
  {
    Entry(id, email, OrNull(name), OrNull(walletAddress), None, None, code, OrNull(referredByCode),
          false, false, false, now, now)
  }

  /** The emails of the rows whose referral code is `code`. */
  function Owners(entries: map<string, Entry>, code: string): set<string> {
    set key | key in entries && entries[key].referralCode == code
  }

  /** The referrer `.eq('referral_code', code).single()` finds: the owner of the code when there is exactly one. */
  ghost function ReferrerOf(entries: map<string, Entry>, code: string): (r: Option<string>)
    ensures r.Some? <==> |Owners(entries, code)| == 1
    ensures r.Some? ==> Owners(entries, code) == {r.value}
  {
    var owners := Owners(entries, code);
    if |owners| == 1 then
      var o :| o in owners;
      assert owners == {o} by {
        assert |owners - {o}| == 0;
        forall x | x in owners ensures x == o {
          assert x !in owners - {o};
        }
      }
      Some(o)
    else None
  }

  /** The outcomes of the four calls of `joinWaitlist`. */
  datatype JoinFaults = JoinFaults(check: Fault, insert: Fault, referrerLookup: Fault, referralInsert: Fault)

  const NoJoinFaults := JoinFaults(NoFault, NoFault, NoFault, NoFault)

  /**
   * The referral rows a successful sign-up adds: one `(referrer, new email)`
   * row when a code was given, the lookup found exactly one owner and the
   * insert went through; none otherwise.
   */
  ghost function ReferralRows(entries: map<string, Entry>, email: string, referredByCode: Option<string>,
                              faults: JoinFaults): (rows: seq<Referral>)
    ensures |rows| <= 1
    ensures rows != [] ==> OrNull(referredByCode).Some? && faults.referrerLookup.NoFault? && faults.referralInsert.NoFault?
    ensures rows != [] ==> rows[0].referredEmail == email && rows[0].referrerEmail in entries
    ensures rows != [] ==> entries[rows[0].referrerEmail].referralCode == referredByCode.value
  {
    if OrNull(referredByCode).Some? && faults.referrerLookup.NoFault? && faults.referralInsert.NoFault?
       && ReferrerOf(entries, referredByCode.value).Some?
    then
      var o := ReferrerOf(entries, referredByCode.value).value;
      assert o in Owners(entries, referredByCode.value);
      [Referral(o, email)]
    else []
  }

  /**
   * `joinWaitlist`: reject a known email, derive the referral code, insert
   * the row, then try to record the referral. Every failure ends in `None`
   * with nothing written; a failure while recording the referral does not
   * change the result.
   */
  method JoinWaitlist(db: Database, email: string, name: Option<string>, referredByCode: Option<string>,
                      walletAddress: Option<string>, newId: string, now: string, faults: JoinFaults)
    returns (r: Option<Entry>)
    requires db.Valid()
    modifies db
    ensures db.Valid()
    ensures email in old(db.entries) ==> r.None?
    ensures r.Some? <==> email !in old(db.entries) && ReferralCode(email).Some? && faults.insert.NoFault?
    ensures r.Some? ==> r.value == NewEntry(newId, email, name, referredByCode, walletAddress, ReferralCode(email).value, now)
    ensures r.Some? ==> db.entries == old(db.entries)[email := r.value]
    ensures r.Some? ==> db.referrals == old(db.referrals) + ReferralRows(db.entries, email, referredByCode, faults)
    ensures r.None? ==> db.entries == old(db.entries) && db.referrals == old(db.referrals)
  {
    var userExists := db.ValidateUserExists(email, faults.check);
    if userExists {
      // "Already signed up!"
      return None;
    }
    var code := ReferralCode(email);
    if code.None? {
      // `btoa` throws; the catch block returns null.
      return None;
    }
    if !faults.insert.NoFault? || email in db.entries {
      // A unique-constraint violation (23505) returns null; any other error is rethrown and caught.
      return None;
    }
    var row := NewEntry(newId, email, name, referredByCode, walletAddress, code.value, now);
    db.entries := db.entries[email := row];
    RecordReferral(db, email, referredByCode, faults);
    return Some(row);
  }

  /**
   * The referral step of `joinWaitlist`, after the insert: look the code's
   * owner up and, when there is exactly one, add a referral row. A failure
   * here is caught and changes nothing.
   */
  method RecordReferral(db: Database, email: string, referredByCode: Option<string>, faults: JoinFaults)
    modifies db
    ensures db.entries == old(db.entries)
    ensures db.referrals == old(db.referrals) + ReferralRows(db.entries, email, referredByCode, faults)
  {
    if OrNull(referredByCode).Some? && faults.referrerLookup.NoFault? {
      var owners := set key | key in db.entries && db.entries[key].referralCode == referredByCode.value;
      assert owners == Owners(db.entries, referredByCode.value);
      if |owners| == 1 && faults.referralInsert.NoFault? {
        var referrer :| referrer in owners;
        assert ReferrerOf(db.entries, referredByCode.value) == Some(referrer);
        db.referrals := db.referrals + [Referral(referrer, email)];
      }
    }
  }

  /** A sign-up whose referral code is its own, with no other owner of that code, records itself as its referrer. */
  lemma SelfReferral(entries: map<string, Entry>, email: string, row: Entry, faults: JoinFaults)
    requires row.email == email && email !in entries
    requires row.referredByCode.Some? && row.referredByCode.value == row.referralCode != ""
    requires Owners(entries, row.referralCode) == {}
    requires faults.referrerLookup.NoFault? && faults.referralInsert.NoFault?
    ensures ReferralRows(entries[email := row], email, row.referredByCode, faults) == [Referral(email, email)]
  {
    OwnersAfterInsert(entries, email, row);
  }

  /** Inserting a new row adds its email to the owners of its code and to no other code's owners. */
  lemma OwnersAfterInsert(entries: map<string, Entry>, email: string, row: Entry)
    requires row.email == email && email !in entries
    ensures Owners(entries[email := row], row.referralCode) == Owners(entries, row.referralCode) + {email}
  {
  }

  // ---------------------------------------------------------------- updates

  /** `updateWaitlistEntry`: the updated row, or `None` when `safelyUpdateUser` reports failure. */
  method UpdateWaitlistEntry(db: Database, email: string, updates: Patch, faults: UpdateFaults)
    returns (r: Option<Entry>)
    requires db.Valid()
    modifies db
    ensures db.Valid()
    ensures r.Some? <==> UpdateSucceeds(old(db.entries), email, faults)
    ensures r.Some? ==> r.value == Apply(old(db.entries)[email], updates)
    ensures db.entries == if r.Some? then AfterUpdate(old(db.entries), email, updates) else old(db.entries)
    ensures db.referrals == old(db.referrals)
  {
    var result := db.SafelyUpdateUser(email, updates, faults);
    if result.UpdateFailed? {
      return None;
    }
    return Some(result.data);
  }

  /**
   * `verifyTwitterFollow`: no check against Twitter; true exactly when the
   * guarded update that records the username and the follow succeeds.
   */
  method VerifyTwitterFollow(db: Database, email: string, twitterUsername: string, now: string, faults: UpdateFaults)
    returns (verified: bool)
    requires db.Valid()
    modifies db
    ensures db.Valid()
    ensures verified <==> UpdateSucceeds(old(db.entries), email, faults)
    ensures db.entries == if verified then AfterUpdate(old(db.entries), email, TwitterPatch(twitterUsername, now)) else old(db.entries)
    ensures db.referrals == old(db.referrals)
  {
    var result := db.SafelyUpdateUser(email, TwitterPatch(twitterUsername, now), faults);
    // A failure is rethrown as an Error and caught at once.
    verified := result.Updated?;
  }

  /** `verifyDiscordJoin`: as `verifyTwitterFollow`, for the Discord username and the join flag. */
  method VerifyDiscordJoin(db: Database, email: string, discordUsername: string, now: string, faults: UpdateFaults)
    returns (verified: bool)
    requires db.Valid()
    modifies db
    ensures db.Valid()
    ensures verified <==> UpdateSucceeds(old(db.entries), email, faults)
    ensures db.entries == if verified then AfterUpdate(old(db.entries), email, DiscordPatch(discordUsername, now)) else old(db.entries)
    ensures db.referrals == old(db.referrals)
  {
    var result := db.SafelyUpdateUser(email, DiscordPatch(discordUsername, now), faults);
    verified := result.Updated?;
  }

  /** The outcome of attempt `i` of a retry loop; attempts beyond the given outcomes meet no fault. */
  function FaultAt(faults: seq<UpdateFaults>, i: int): UpdateFaults {
    if 0 <= i < |faults| then faults[i] else NoUpdateFaults
  }

  /**
   * How many verify calls a dialog's `while (!verified && attempts < 3)` loop
   * makes when the attempts meet `faults`: up to and including the first
   * that succeeds, and never more than three. Failed attempts change nothing,
   * so every attempt sees the same table.
   */
  function AttemptsUsed(entries: map<string, Entry>, email: string, faults: seq<UpdateFaults>): (n: nat)
    ensures 1 <= n <= 3
    ensures forall i | 0 <= i < n - 1 :: !UpdateSucceeds(entries, email, FaultAt(faults, i))
    ensures n < 3 ==> UpdateSucceeds(entries, email, FaultAt(faults, n - 1))
  {
    AttemptsFrom(entries, email, faults, 0)
  }

  function AttemptsFrom(entries: map<string, Entry>, email: string, faults: seq<UpdateFaults>, k: nat): (n: nat)
    requires k < 3
    ensures k + 1 <= n <= 3
    ensures forall i | k <= i < n - 1 :: !UpdateSucceeds(entries, email, FaultAt(faults, i))
    ensures n < 3 ==> UpdateSucceeds(entries, email, FaultAt(faults, n - 1))
    decreases 3 - k
  {
    if k == 2 || UpdateSucceeds(entries, email, FaultAt(faults, k)) then k + 1
    else AttemptsFrom(entries, email, faults, k + 1)
  }

  /** A loop that stops at its first success, or after three failures, has made exactly `AttemptsUsed` calls. */
  lemma AttemptsUsedUnique(entries: map<string, Entry>, email: string, faults: seq<UpdateFaults>, n: nat)
    requires 1 <= n <= 3
    requires forall i | 0 <= i < n - 1 :: !UpdateSucceeds(entries, email, FaultAt(faults, i))
    requires n < 3 ==> UpdateSucceeds(entries, email, FaultAt(faults, n - 1))
    ensures AttemptsUsed(entries, email, faults) == n
  {
  }

  /** A stored email with no row behind it makes every attempt fail: the loop runs all three. */
  lemma AttemptsForMissingRow(entries: map<string, Entry>, email: string, faults: seq<UpdateFaults>)
    requires email !in entries
    ensures AttemptsUsed(entries, email, faults) == 3
  {
  }

  /** With the row present and no faults, the first attempt succeeds. */
  lemma AttemptsWithoutFaults(entries: map<string, Entry>, email: string)
    requires email in entries
    ensures AttemptsUsed(entries, email, []) == 1
  {
  }

  // ---------------------------------------------------------------- reads

  /**
   * `getWaitlistEntry`: probe the connection, then look the email up. Any
   * failure, and a missing row, give `None`.
   */
  method GetWaitlistEntry(db: Database, email: string, connection: Fault, query: Fault) returns (r: Option<Entry>)
    ensures r.Some? <==> connection.NoFault? && query.NoFault? && email in db.entries
    ensures r.Some? ==> r.value == db.entries[email]
  {
    var status := db.CheckSupabaseConnection(connection);
    if status.ConnectionFailed? {
      return None;
    }
    if !query.NoFault? || email !in db.entries {
      // PGRST116 returns null; other errors are rethrown and caught.
      return None;
    }
    return Some(db.entries[email]);
  }

  /** `getTotalWaitlistCount`: the exact row count, or 0 when the query fails. */
  method GetTotalWaitlistCount(db: Database, fault: Fault) returns (count: nat)
    ensures fault.NoFault? ==> count == |db.entries|
    ensures !fault.NoFault? ==> count == 0
  {
    if !fault.NoFault? {
      return 0;
    }
    count := |db.entries|;
  }

  // ---------------------------------------------------------------- leaderboard

  /** A `referral_count` as the leaderboard procedure may deliver it. */
  datatype RawCount = Num(n: int) | Text(s: string) | Missing

  /** A row returned by the `get_referral_leaderboard` procedure. */
  datatype RpcRow = RpcRow(email: string, name: Option<string>, walletAddress: Option<string>,
                           referralCount: RawCount, createdAt: Option<string>)

  /** A leaderboard row after formatting, with its count as a JavaScript number. */
  datatype LeaderRow = LeaderRow(email: string, name: Option<string>, walletAddress: Option<string>,
                                 referralCount: Number, createdAt: Option<string>)

  /**
   * `String(c || '0')`: never empty, since a falsy count (`0`, `''` or a
   * missing one) becomes `'0'`; a number prints as itself, a non-empty string
   * is kept.
   */
  function CountOrZero(c: RawCount): (r: string)
    ensures r != ""
    ensures c.Num? ==> r == IntToString(c.n)
    ensures c.Text? && c.s != "" ==> r == c.s
    ensures c.Missing? || c == Text("") ==> r == "0"
  {
    match c
    case Num(n) => if n == 0 then "0" else IntToString(n)
    case Text(s) => if s == "" then "0" else s
    case Missing => "0"
  }

  /**
   * `parseInt(item.referral_count || '0')`: numeric counts pass through
   * unchanged, and a missing or empty count becomes 0.
   */
  function CoerceCount(c: RawCount): (n: Number)
    ensures c.Num? ==> n == Int(c.n)
    ensures c.Missing? || c == Text("") ==> n == Int(0)
  {
    match c
    case Num(v) =>
      ParseIntOfToString(v);
      ParseInt(CountOrZero(c))
    case _ =>
      if c.Missing? || c == Text("") then
        assert CountOrZero(c) == NatToString(0);
        ParseIntOfDigits(CountOrZero(c));
        ValueOfNatToString(0);
        ParseInt(CountOrZero(c))
      else ParseInt(CountOrZero(c))
  }

  /** One row of `{...item, referral_count: …}`: every field kept, the count coerced. */
  function FormatRow(row: RpcRow): (r: LeaderRow)
    ensures r.email == row.email && r.name == row.name && r.walletAddress == row.walletAddress
      && r.createdAt == row.createdAt
    ensures r.referralCount == CoerceCount(row.referralCount)
  {
    LeaderRow(row.email, row.name, row.walletAddress, CoerceCount(row.referralCount), row.createdAt)
  }

  /**
   * `getLeaderboard`: the procedure's rows, in the order it returns them,
   * each with its count coerced; `[]` when the call fails.
   */
  function GetLeaderboard(rows: Option<seq<RpcRow>>): (r: seq<LeaderRow>)
    ensures rows.None? ==> r == []
    ensures rows.Some? ==> |r| == |rows.value|
    ensures rows.Some? ==> forall i | 0 <= i < |r| ::
      r[i].email == rows.value[i].email && r[i].name == rows.value[i].name
      && r[i].walletAddress == rows.value[i].walletAddress && r[i].createdAt == rows.value[i].createdAt
      && r[i].referralCount == CoerceCount(rows.value[i].referralCount)
  {
    match rows
    case None => []
    case Some(data) => seq(|data|, i requires 0 <= i < |data| => FormatRow(data[i]))
  }

  /**
   * `parseInt(entry.referral_count) || 0`: NaN and 0 both become 0, so a
   * numeric count is kept as it is and a missing one becomes 0.
   */
  function FormatCount(c: RawCount): (n: int)
    ensures c.Num? ==> n == c.n
    ensures c.Missing? ==> n == 0
  {
    if c.Num? then ParseIntOfToString(c.n); OrZero(ParseInt(IntToString(c.n)))
    else if c.Text? then OrZero(ParseInt(c.s))
    else OrZero(NaN)
  }

  /** `n || 0` on a parsed number. */
  function OrZero(n: Number): int {
    match n
    case NaN => 0
    case Int(v) => v
  }

  /** `formatLeaderboardData`: every count becomes an integer, never NaN. */
  function FormatLeaderboardData(data: seq<RpcRow>): (r: seq<LeaderRow>)
    ensures |r| == |data|
    ensures forall i | 0 <= i < |r| ::
      r[i].email == data[i].email && r[i].name == data[i].name
      && r[i].walletAddress == data[i].walletAddress && r[i].createdAt == data[i].createdAt
      && r[i].referralCount == Int(FormatCount(data[i].referralCount))
  {
    seq(|data|, i requires 0 <= i < |data| =>
      LeaderRow(data[i].email, data[i].name, data[i].walletAddress, Int(FormatCount(data[i].referralCount)), data[i].createdAt))
  }
}
