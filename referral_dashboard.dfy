/**
 * `src/pages/ReferralDashboard.tsx`: the dashboard. It shows the referral
 * link built from the stored record, the top ten of the leaderboard, and
 * the visitor's own rank and referral count; leaderboard rows show a masked
 * email and the profile card a shortened wallet address.
 */
module ReferralDashboard {
  import opened Common
  import opened JsText
  import opened JsNumber
  import opened Session
  import opened UseWaitlist
  import opened EmailModal

  /** The link shown when the record has no referral code. */
  const FallbackLink := "https://neftit.com/waitlist"

  /** The initial `userRank`. */
  const DefaultRank := "#001"

  /** The path and query prefix of a referral link. */
  const RefPath := "/waitlist?ref="

  /**
   * `referralLink`: the origin, the signup path and the record's
   * `referral_code` (as a template literal renders it) when the code is
   * truthy, else the fixed fallback.
   */
  function ReferralLink(userInfo: Option<Record>, origin: string): (link: string)
    ensures !(userInfo.Some? && Truthy(Field(userInfo.value, Key.ReferralCode))) ==> link == FallbackLink
  {
    if userInfo.Some? && Truthy(Field(userInfo.value, Key.ReferralCode))
    then origin + RefPath + Session.Text(Field(userInfo.value, Key.ReferralCode))
    else FallbackLink
  }

  /**
   * A stored code made by the referral-code derivation comes back out of the
   * link: the text after its only `=` is the code, which is what the signup
   * page reads as `ref`, and the link starts with the origin.
   */
  lemma ReferralLinkCarriesCode(userInfo: Record, origin: string, email: string)
    requires UseWaitlist.ReferralCode(email).Some? && Field(userInfo, Key.ReferralCode) == JStr(UseWaitlist.ReferralCode(email).value)
    requires UseWaitlist.ReferralCode(email).value != "" && '=' !in origin
    ensures var link := ReferralLink(Some(userInfo), origin);
      link[..|origin|] == origin && SplitSecond(link, '=') == Some(UseWaitlist.ReferralCode(email).value)
  {
    var code := UseWaitlist.ReferralCode(email).value;
    UseWaitlist.ReferralCodeShape(email);
    var link := ReferralLink(Some(userInfo), origin);
    assert link == origin + RefPath + code;
    var i := |origin| + |RefPath| - 1;
    assert link[i] == '=';
    assert forall k | 0 <= k < i :: link[k] != '=' by {
      forall k | 0 <= k < i ensures link[k] != '=' {
        if k < |origin| {
          assert link[k] == origin[k];
        } else {
          assert link[k] == RefPath[k - |origin|];
        }
      }
    }
    assert IndexOf(link, '=') == Some(i);
    assert link[i + 1..] == code;
    assert forall k | 0 <= k < |code| :: code[k] != '=' by {
      forall k | 0 <= k < |code| ensures code[k] != '=' {
        assert IsAsciiAlnum(code[k]);
      }
    }
    assert IndexOf(code, '=') == None;
    assert link[..|origin|] == origin;
  }

  /** `data.slice(0, 10)`: the first ten rows, or all of them when there are fewer. */
  function TopTen(data: seq<LeaderRow>): (r: seq<LeaderRow>)
    ensures |r| == Min(10, |data|)
    ensures forall i | 0 <= i < |r| :: r[i] == data[i]
  {
    data[..Min(10, |data|)]
  }

  /**
   * `data.findIndex(entry => entry.email === email)`, with `None` for -1.
   * `data.find` with the same test returns the row at this index.
   */
  function FindIndex(data: seq<LeaderRow>, email: Json): (r: Option<nat>)
    ensures r.Some? ==> r.value < |data| && JStr(data[r.value].email) == email
    ensures r.Some? ==> forall k | 0 <= k < r.value :: JStr(data[k].email) != email
    ensures r.None? ==> forall k | 0 <= k < |data| :: JStr(data[k].email) != email
  {
    if data == [] then None
    else if JStr(data[0].email) == email then Some(0)
    else match FindIndex(data[1..], email)
      case None => None
      case Some(i) => Some(i + 1)
  }

  /**
   * `` `#${rank.toString().padStart(3, '0')}` ``: `#`, then decimal digits
   * only, padded to at least three and never cut.
   */
  function RankString(rank: nat): (r: string)
    ensures |r| == 1 + Max(3, |NatToString(rank)|) && r[0] == '#'
    ensures forall k | 1 <= k < |r| :: IsDigit(r[k])
  {
    "#" + PadStart(NatToString(rank), 3, '0')
  }

  /**
   * The rank shown after the lookup: the found row's 1-based position,
   * formatted, or the rank shown before when no row was found.
   */
  function RankAfter(found: Option<nat>, before: string): (r: string)
    ensures found.None? ==> r == before
    ensures found.Some? ==> |r| >= 4 && r[0] == '#'
  {
    if found.Some? then RankString(found.value + 1) else before
  }

  /** Reading the digits of the rank text back gives the rank. */
  lemma RankStringParses(rank: nat)
    ensures ParseInt(RankString(rank)[1..]) == Int(rank)
  {
    var d := NatToString(rank);
    var padded := PadStart(d, 3, '0');
    assert RankString(rank)[1..] == padded;
    if |d| >= 3 {
      assert Repeat('0', 0) + d == d;
      ParseIntOfPadded(0, rank);
    } else {
      ParseIntOfPadded(3 - |d|, rank);
    }
  }

  /**
   * When the user's email is on the leaderboard, the rank shown reads back as
   * the 1-based position of its first row.
   */
  lemma ShownRankIsPosition(data: seq<LeaderRow>, email: Json, before: string)
    requires FindIndex(data, email).Some?
    ensures var i := FindIndex(data, email).value;
      var shown := RankAfter(FindIndex(data, email), before);
      shown[0] == '#' && ParseInt(shown[1..]) == Int(i + 1)
      && JStr(data[i].email) == email && forall k | 0 <= k < i :: JStr(data[k].email) != email
  {
    RankStringParses(FindIndex(data, email).value + 1);
  }

  /** The default rank text is what rank 1 formats to. */
  lemma DefaultRankIsFirst()
    ensures RankString(1) == DefaultRank
  {
    assert NatToString(1) == ['1'];
    assert Repeat('0', 2) == "00";
  }

  /** Ranks up to 999 format to four characters. */
  lemma {:induction false} ShortRank(rank: nat)
    requires rank < 1000
    ensures |NatToString(rank)| <= 3
  {
    if rank >= 10 {
      ShortRank(rank / 10);
    }
  }

  /**
   * The JSX children `{email.substring(0, 3)}****{email.split('@')[1]}`: the
   * first three characters, four stars, and the text after the first `@` up
   * to the next one. Without an `@` the second child is `undefined`, which
   * React renders as nothing.
   */
  function MaskEmail(email: string): (r: string)
    ensures var n := Min(3, |email|);
      |r| >= n + 4 && r[..n] == email[..n] && r[n..n + 4] == "****"
  {
    Substring(email, 0, 3) + "****" + SplitSecond(email, '@').GetOr("")
  }

  /** An email without `@` is masked as its first three characters and four stars, with nothing after them. */
  lemma MaskWithoutAt(email: string)
    requires '@' !in email
    ensures MaskEmail(email) == email[..Min(3, |email|)] + "****"
  {
    assert Substring(email, 0, 3) == email[..Min(3, |email|)];
  }

  /** The mask of `abc` is `abc****`: nothing stands for the missing domain. */
  lemma MaskOfAbc()
    ensures MaskEmail("abc") == "abc****"
  {
    MaskWithoutAt("abc");
  }

  /**
   * For an address the sign-up form accepts, the mask is its first three
   * characters, four stars and the whole domain.
   */
  lemma MaskOfValidEmail(email: string)
    requires IsValidEmail(email)
    ensures var i := IndexOf(email, '@').value;
      MaskEmail(email) == email[..Min(3, |email|)] + "****" + email[i + 1..]
  {
    var i := IndexOf(email, '@').value;
    var rest := email[i + 1..];
    assert AllEmailChars(rest);
    NoAtInEmailChars(rest);
    assert SplitSecond(email, '@') == Some(rest);
    assert Substring(email, 0, 3) == email[..Min(3, |email|)];
  }

  lemma NoAtInEmailChars(s: string)
    requires AllEmailChars(s)
    ensures IndexOf(s, '@') == None
  {
    assert forall k | 0 <= k < |s| :: s[k] != '@' by {
      forall k | 0 <= k < |s| ensures s[k] != '@' {
        assert IsEmailChar(s[k]);
      }
    }
  }

  /**
   * The JSX children `{w.substring(0, 6)}...{w.substring(38)}`: the first
   * six characters, `...`, and whatever follows the 38th.
   */
  function TruncateWallet(w: string): (r: string)
    ensures |w| >= 38 ==> r == w[..6] + "..." + w[38..]
    ensures 6 <= |w| < 38 ==> r == w[..6] + "..."
    ensures |w| < 6 ==> r == w + "..."
  {
    Substring(w, 0, 6) + "..." + SubstringFrom(w, 38)
  }

  /** A valid address shows as `0x`, its next four digits, `...` and its last four digits. */
  lemma TruncateValidWallet(w: string)
    requires ValidateWalletAddress(w)
    ensures TruncateWallet(w) == w[..6] + "..." + w[|w| - 4..]
    ensures |TruncateWallet(w)| == 13 && TruncateWallet(w)[..2] == "0x"
  {
    assert Substring(w, 0, 6) == w[..6];
    assert w[..6][..2] == w[..2] == "0x";
  }

  /** The page's state. */
  class Dashboard {
    var userInfo: Option<Record>
    var leaderboardData: seq<LeaderRow>
    var userReferralCount: Number
    var userRank: string

    constructor ()
      ensures userInfo.None? && leaderboardData == [] && userReferralCount == Int(0) && userRank == DefaultRank
    {
      userInfo := None;
      leaderboardData := [];
      userReferralCount := Int(0);
      userRank := DefaultRank;
    }

    /** The effect's first step: a stored record becomes `userInfo`; without one it is left as it was. */
    method LoadUser(storage: LocalStorage)
      modifies this`userInfo
      ensures userInfo == if storage.waitlistUser.Some? then storage.waitlistUser else old(userInfo)
    {
      var storedUser := storage.waitlistUser;
      if storedUser.Some? {
        userInfo := storedUser;
      }
    }

    /**
     * `loadLeaderboard`, run when `userInfo` has a truthy email: the
     * leaderboard shows the first ten rows; when a row has the user's email,
     * the count and the rank come from the first such row, the rank being
     * its 1-based position (`ShownRankIsPosition` reads it back). Without an
     * email nothing changes.
     */
    method LoadLeaderboard(rows: Option<seq<RpcRow>>)
      modifies this`leaderboardData, this`userReferralCount, this`userRank
      ensures !(userInfo.Some? && Truthy(Field(userInfo.value, Key.Email))) ==>
        leaderboardData == old(leaderboardData) && userReferralCount == old(userReferralCount) && userRank == old(userRank)
      ensures userInfo.Some? && Truthy(Field(userInfo.value, Key.Email)) ==>
        var data := GetLeaderboard(rows);
        var found := FindIndex(data, Field(userInfo.value, Key.Email));
        leaderboardData == TopTen(data)
        && userReferralCount == (if found.Some? then data[found.value].referralCount else old(userReferralCount))
        && userRank == RankAfter(found, old(userRank))
    {
      if !(userInfo.Some? && Truthy(Field(userInfo.value, Key.Email))) {
        return;
      }
      ShowLeaderboard(GetLeaderboard(rows), Field(userInfo.value, Key.Email));
    }

    /** The body of `loadLeaderboard` once the formatted rows are in hand. */
    method ShowLeaderboard(data: seq<LeaderRow>, email: Json)
      modifies this`leaderboardData, this`userReferralCount, this`userRank
      ensures var found := FindIndex(data, email);
        leaderboardData == TopTen(data)
        && userReferralCount == (if found.Some? then data[found.value].referralCount else old(userReferralCount))
        && userRank == RankAfter(found, old(userRank))
    {
      leaderboardData := TopTen(data);
      var userEntry := FindIndex(data, email);
      if userEntry.Some? {
        // Counts are numbers once the leaderboard is formatted, so `typeof` picks the count itself.
        userReferralCount := data[userEntry.value].referralCount;
        userRank := RankString(userEntry.value + 1);
        // The joined date is not modelled.
      }
    }
  }
}
