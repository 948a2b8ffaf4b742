/**
 * `src/pages/WaitlistSignup.tsx`: the sign-up page. It restores the list of
 * completed actions from the session record, opens the dialog an action
 * card asks for, merges each dialog's success into the session record, and
 * lets the visitor through to the dashboard once all four actions are done.
 */
module WaitlistSignup {
  import opened Common
  import opened Schema
  import opened Session
  import opened SupabaseUtils
  import opened UseWaitlist

  /** The action ids `"email"`, `"address"`, `"twitter"` and `"discord"`. */
  datatype Action = Email | Address | Twitter | Discord

  /** `requiredActions`: the four action ids, in card order. */
  const RequiredActions: seq<Action> := [Action.Email, Action.Address, Action.Twitter, Action.Discord]

  /** The initial, placeholder `waitlistCount`. */
  const InitialWaitlistCount := 1247

  /**
   * `requiredActions.every(action => completedActions.includes(action))`:
   * all four ids must occur in the list.
   */
  predicate AllActionsCompleted(completed: seq<Action>): (r: bool)
    ensures r <==>
      Action.Email in completed && Action.Address in completed && Action.Twitter in completed && Action.Discord in completed
  {
    assert RequiredActions[0] == Action.Email && RequiredActions[3] == Action.Discord;
    forall a <- RequiredActions :: a in completed
  }

  /** Only which ids occur counts, so order and repetitions do not matter. */
  lemma CompletionByMembers(completed: seq<Action>, other: seq<Action>)
    requires forall a :: a in completed <==> a in other
    ensures AllActionsCompleted(completed) == AllActionsCompleted(other)
  {
  }

  /** Whether the stored record shows `action` as done, as the restore effect reads it. */
  predicate RecordShows(r: Record, action: Action) {
    match action
    case Email => Truthy(Field(r, Key.Email))
    case Address => Truthy(Field(r, Key.WalletAddress))
    case Twitter => Truthy(Field(r, Key.TwitterUsername)) && Truthy(Field(r, Key.TwitterFollowed))
    case Discord => Truthy(Field(r, Key.DiscordUsername)) && Truthy(Field(r, Key.DiscordJoined))
  }

  /** What one step of the restore effect appends: `action` if the record shows it and the list lacked it. */
  function Step(snapshot: seq<Action>, r: Record, action: Action): (added: seq<Action>)
    ensures added == [] || added == [action]
    ensures action in added <==> RecordShows(r, action) && action !in snapshot
  {
    if RecordShows(r, action) && action !in snapshot then [action] else []
  }

  /**
   * The list after the restore effect: the four blocks in card order, each
   * appending its id when the record shows the action and the list as it
   * was when the effect ran lacked it. What was there stays, in place, and
   * at most the four ids are added.
   */
  function RestoredActions(snapshot: seq<Action>, r: Record): (s: seq<Action>)
    ensures |snapshot| <= |s| <= |snapshot| + 4 && s[..|snapshot|] == snapshot
  {
    snapshot + Step(snapshot, r, Action.Email) + Step(snapshot, r, Action.Address)
    + Step(snapshot, r, Action.Twitter) + Step(snapshot, r, Action.Discord)
  }

  /** After restoring, an action is in the list exactly when it was before or the record shows it. */
  lemma RestoredActionsMembers(snapshot: seq<Action>, r: Record)
    ensures var s := RestoredActions(snapshot, r);
      forall a :: a in s <==> a in snapshot || RecordShows(r, a)
  {
    var s := RestoredActions(snapshot, r);
    forall a
      ensures a in s <==> a in snapshot || RecordShows(r, a)
    {
      assert Step(snapshot, r, a) == [] <==> !(RecordShows(r, a) && a !in snapshot);
      match a
      case Email =>
      case Address =>
      case Twitter =>
      case Discord =>
    }
  }

  /** No action occurs twice. */
  predicate Distinct(s: seq<Action>) {
    forall i, j | 0 <= i < j < |s| :: s[i] != s[j]
  }

  /** Appending nothing, or one action the list lacks, keeps the list without repetitions. */
  lemma AppendFreshDistinct(s: seq<Action>, extra: seq<Action>)
    requires Distinct(s)
    requires extra == [] || (|extra| == 1 && extra[0] !in s)
    ensures Distinct(s + extra)
  {
    if extra != [] {
      forall i, j | 0 <= i < j < |s + extra|
        ensures (s + extra)[i] != (s + extra)[j]
      {
        if j == |s| {
          assert (s + extra)[i] == s[i];
        }
      }
    }
  }

  /** Restoring into a list without repetitions keeps it without repetitions. */
  lemma RestoredActionsDistinct(snapshot: seq<Action>, r: Record)
    requires Distinct(snapshot)
    ensures Distinct(RestoredActions(snapshot, r))
  {
    var s0 := snapshot;
    var s1 := s0 + Step(snapshot, r, Action.Email);
    var s2 := s1 + Step(snapshot, r, Action.Address);
    var s3 := s2 + Step(snapshot, r, Action.Twitter);
    AppendFreshDistinct(s0, Step(snapshot, r, Action.Email));
    AppendFreshDistinct(s1, Step(snapshot, r, Action.Address));
    AppendFreshDistinct(s2, Step(snapshot, r, Action.Twitter));
    AppendFreshDistinct(s3, Step(snapshot, r, Action.Discord));
  }

  /**
   * On a fresh page (nothing completed yet) restoring marks all four actions
   * done exactly when the record has an email, a wallet, a Twitter username
   * with the follow flag and a Discord username with the join flag.
   */
  lemma RestoreCompletesAll(r: Record)
    ensures AllActionsCompleted(RestoredActions([], r)) <==>
      Truthy(Field(r, Key.Email)) && Truthy(Field(r, Key.WalletAddress))
      && Truthy(Field(r, Key.TwitterUsername)) && Truthy(Field(r, Key.TwitterFollowed))
      && Truthy(Field(r, Key.DiscordUsername)) && Truthy(Field(r, Key.DiscordJoined))
  {
    assert RecordShows(r, Action.Email) && RecordShows(r, Action.Address)
      && RecordShows(r, Action.Twitter) && RecordShows(r, Action.Discord)
      <==> AllActionsCompleted(RestoredActions([], r)) by {
      CompletionByMembers(RestoredActions([], r), RestoredActions([], r));
    }
  }

  /** `a || b || dflt`: the first truthy of the three, else `dflt`. */
  function Fallback(a: Json, b: Json, dflt: Json): (r: Json)
    ensures Truthy(r) <==> Truthy(a) || Truthy(b) || Truthy(dflt)
    ensures Truthy(a) ==> r == a
    ensures !Truthy(a) && Truthy(b) ==> r == b
  {
    Or(Or(a, b), dflt)
  }

  /**
   * The record `handleEmailSuccess` writes: the existing record, overridden
   * by the new email, the entry's code and name, every social field taken
   * from page state, then from the existing record, then null or false, the
   * entry's `created_at` (or the existing one, or now), and a fresh
   * `updated_at`. Keys it does not list keep their existing values.
   */
  function MergedRecord(existing: Record, email: string, entry: Entry, userWalletAddress: Json,
                        userTwitterUsername: Json, twitterDone: bool, userDiscordUsername: Json, discordDone: bool,
                        now: string): (r: Record)
    ensures Field(r, Key.Email) == JStr(email) && Field(r, Key.ReferralCode) == JStr(entry.referralCode)
    ensures Field(r, Key.Name) == Nullable(entry.name) && Field(r, Key.UpdatedAt) == JStr(now)
    ensures forall key :: key in r <==> key in existing || key in MergedKeys
    ensures forall key | key in existing && key !in MergedKeys :: r[key] == existing[key]
  {
    existing[Key.Email := JStr(email)]
            [Key.ReferralCode := JStr(entry.referralCode)]
            [Key.Name := Nullable(entry.name)]
            [Key.WalletAddress := Fallback(userWalletAddress, Field(existing, Key.WalletAddress), JNull)]
            [Key.TwitterUsername := Fallback(userTwitterUsername, Field(existing, Key.TwitterUsername), JNull)]
            [Key.TwitterFollowed := Fallback(JBool(twitterDone), Field(existing, Key.TwitterFollowed), JBool(false))]
            [Key.DiscordUsername := Fallback(userDiscordUsername, Field(existing, Key.DiscordUsername), JNull)]
            [Key.DiscordJoined := Fallback(JBool(discordDone), Field(existing, Key.DiscordJoined), JBool(false))]
            [Key.CreatedAt := Fallback(JStr(entry.createdAt), Field(existing, Key.CreatedAt), JStr(now))]
            [Key.UpdatedAt := JStr(now)]
  }

  /**
   * The merge never loses a completed social step: each social field of the
   * written record is set exactly when page state or the existing record
   * has it, page state wins, and the flags are the OR of the page's list and
   * the stored flags.
   */
  lemma MergedRecordSocials(existing: Record, email: string, entry: Entry, userWalletAddress: Json,
                            userTwitterUsername: Json, twitterDone: bool, userDiscordUsername: Json,
                            discordDone: bool, now: string)
    ensures var r := MergedRecord(existing, email, entry, userWalletAddress, userTwitterUsername, twitterDone,
                                  userDiscordUsername, discordDone, now);
      && (Truthy(Field(r, Key.WalletAddress)) <==> Truthy(userWalletAddress) || Truthy(Field(existing, Key.WalletAddress)))
      && (Truthy(userWalletAddress) ==> Field(r, Key.WalletAddress) == userWalletAddress)
      && (Truthy(Field(r, Key.TwitterUsername)) <==> Truthy(userTwitterUsername) || Truthy(Field(existing, Key.TwitterUsername)))
      && (Truthy(Field(r, Key.DiscordUsername)) <==> Truthy(userDiscordUsername) || Truthy(Field(existing, Key.DiscordUsername)))
      && (Truthy(Field(r, Key.TwitterFollowed)) <==> twitterDone || Truthy(Field(existing, Key.TwitterFollowed)))
      && (Truthy(Field(r, Key.DiscordJoined)) <==> discordDone || Truthy(Field(existing, Key.DiscordJoined)))
      && (entry.createdAt != "" ==> Field(r, Key.CreatedAt) == JStr(entry.createdAt))
  {
  }

  /** The keys `handleEmailSuccess` writes. */
  const MergedKeys: set<Key> := {Key.Email, Key.ReferralCode, Key.Name, Key.WalletAddress, Key.TwitterUsername,
    Key.TwitterFollowed, Key.DiscordUsername, Key.DiscordJoined, Key.CreatedAt, Key.UpdatedAt}

  /** The page's state. */
  class Page {
    var completedActions: seq<Action>
    var showEmailModal: bool
    var showWalletModal: bool
    var showTwitterModal: bool
    var showDiscordModal: bool
    var userEmail: Json
    var userWalletAddress: Json
    var userTwitterUsername: Json
    var userDiscordUsername: Json
    var waitlistCount: int

    constructor ()
      ensures completedActions == [] && waitlistCount == InitialWaitlistCount
      ensures !showEmailModal && !showWalletModal && !showTwitterModal && !showDiscordModal
      ensures userEmail == JNull && userWalletAddress == JNull && userTwitterUsername == JNull && userDiscordUsername == JNull
    {
      completedActions := [];
      showEmailModal, showWalletModal, showTwitterModal, showDiscordModal := false, false, false, false;
      userEmail, userWalletAddress, userTwitterUsername, userDiscordUsername := JNull, JNull, JNull, JNull;
      waitlistCount := InitialWaitlistCount;
    }

    /**
     * The mount effect: the waitlist count is replaced by the database's
     * count, and a stored record restores the user fields and the completed
     * actions it shows. Each `includes` test reads the list as it was when
     * the effect ran, so an id is appended only if that list lacked it.
     */
    method Restore(db: Database, storage: LocalStorage, countFault: Fault)
      modifies this`waitlistCount, this`completedActions, this`userEmail, this`userWalletAddress,
               this`userTwitterUsername, this`userDiscordUsername
      ensures waitlistCount == if countFault.NoFault? then |old(db.entries)| else 0
      ensures storage.waitlistUser.None? ==>
        completedActions == old(completedActions) && userEmail == old(userEmail)
        && userWalletAddress == old(userWalletAddress) && userTwitterUsername == old(userTwitterUsername)
        && userDiscordUsername == old(userDiscordUsername)
      ensures storage.waitlistUser.Some? ==>
        var r := storage.waitlistUser.value;
        completedActions == RestoredActions(old(completedActions), r)
        && userEmail == (if RecordShows(r, Action.Email) then Field(r, Key.Email) else old(userEmail))
        && userWalletAddress == (if RecordShows(r, Action.Address) then Field(r, Key.WalletAddress) else old(userWalletAddress))
        && userTwitterUsername == (if RecordShows(r, Action.Twitter) then Field(r, Key.TwitterUsername) else old(userTwitterUsername))
        && userDiscordUsername == (if RecordShows(r, Action.Discord) then Field(r, Key.DiscordUsername) else old(userDiscordUsername))
    {
      LoadWaitlistCount(db, countFault);
      var userData := storage.waitlistUser;
      if userData.Some? {
        RestoreFrom(userData.value);
      }
    }

    /** The part of the mount effect that runs on a parsed record. */
    method RestoreFrom(parsedData: Record)
      modifies this`completedActions, this`userEmail, this`userWalletAddress,
               this`userTwitterUsername, this`userDiscordUsername
      ensures completedActions == RestoredActions(old(completedActions), parsedData)
      ensures userEmail == (if RecordShows(parsedData, Action.Email) then Field(parsedData, Key.Email) else old(userEmail))
      ensures userWalletAddress ==
        (if RecordShows(parsedData, Action.Address) then Field(parsedData, Key.WalletAddress) else old(userWalletAddress))
      ensures userTwitterUsername ==
        (if RecordShows(parsedData, Action.Twitter) then Field(parsedData, Key.TwitterUsername) else old(userTwitterUsername))
      ensures userDiscordUsername ==
        (if RecordShows(parsedData, Action.Discord) then Field(parsedData, Key.DiscordUsername) else old(userDiscordUsername))
    {
      var snapshot := completedActions;
      ghost var restored := snapshot;
      if Truthy(Field(parsedData, Key.Email)) {
        userEmail := Field(parsedData, Key.Email);
        MarkRestored(snapshot, parsedData, Action.Email);
      }
      restored := restored + Step(snapshot, parsedData, Action.Email);
      assert completedActions == restored;
      if Truthy(Field(parsedData, Key.WalletAddress)) {
        userWalletAddress := Field(parsedData, Key.WalletAddress);
        MarkRestored(snapshot, parsedData, Action.Address);
      }
      restored := restored + Step(snapshot, parsedData, Action.Address);
      assert completedActions == restored;
      if Truthy(Field(parsedData, Key.TwitterUsername)) && Truthy(Field(parsedData, Key.TwitterFollowed)) {
        userTwitterUsername := Field(parsedData, Key.TwitterUsername);
        MarkRestored(snapshot, parsedData, Action.Twitter);
      }
      restored := restored + Step(snapshot, parsedData, Action.Twitter);
      assert completedActions == restored;
      if Truthy(Field(parsedData, Key.DiscordUsername)) && Truthy(Field(parsedData, Key.DiscordJoined)) {
        userDiscordUsername := Field(parsedData, Key.DiscordUsername);
        MarkRestored(snapshot, parsedData, Action.Discord);
      }
      restored := restored + Step(snapshot, parsedData, Action.Discord);
      assert completedActions == restored;
    }

    /**
     * The inner step of one restore block, run once the record shows
     * `action`: `if (!completedActions.includes(action)) setCompletedActions(prev => [...prev, action])`,
     * where `completedActions` is the list as the effect saw it.
     */
    method MarkRestored(snapshot: seq<Action>, r: Record, action: Action)
      requires RecordShows(r, action)
      modifies this`completedActions
      ensures completedActions == old(completedActions) + Step(snapshot, r, action)
    {
      if action !in snapshot {
        completedActions := completedActions + [action];
      }
    }

    /** `loadWaitlistCount`: the database's count replaces the placeholder. */
    method LoadWaitlistCount(db: Database, countFault: Fault)
      modifies this`waitlistCount
      ensures waitlistCount == if countFault.NoFault? then |db.entries| else 0
    {
      var count := GetTotalWaitlistCount(db, countFault);
      waitlistCount := count;
    }

    /** `handleActionComplete`: opens the one dialog the id names; an unknown id does nothing. */
    method HandleActionComplete(actionId: string)
      modifies this`showEmailModal, this`showWalletModal, this`showTwitterModal, this`showDiscordModal
      ensures showEmailModal == (old(showEmailModal) || actionId == "email")
      ensures showWalletModal == (old(showWalletModal) || actionId == "address")
      ensures showTwitterModal == (old(showTwitterModal) || actionId == "twitter")
      ensures showDiscordModal == (old(showDiscordModal) || actionId == "discord")
    {
      if actionId == "email" {
        showEmailModal := true;
        return;
      }
      if actionId == "address" {
        showWalletModal := true;
        return;
      }
      if actionId == "twitter" {
        showTwitterModal := true;
        return;
      }
      if actionId == "discord" {
        showDiscordModal := true;
        return;
      }
    }

    /**
     * `handleEmailSuccess`: records the email, appends `email` to the list
     * (even when it is already there), and writes the merged record,
     * starting from `{}` when nothing is stored.
     */
    method HandleEmailSuccess(storage: LocalStorage, email: string, entry: Entry, now: string)
      modifies this`userEmail, this`completedActions, storage
      ensures userEmail == JStr(email) && completedActions == old(completedActions) + [Action.Email]
      ensures storage.waitlistUser == Some(MergedRecord(old(storage.waitlistUser).GetOr(map[]), email, entry,
        userWalletAddress, userTwitterUsername, Action.Twitter in old(completedActions),
        userDiscordUsername, Action.Discord in old(completedActions), now))
    {
      var twitterDone := Action.Twitter in completedActions;
      var discordDone := Action.Discord in completedActions;
      userEmail := JStr(email);
      completedActions := completedActions + [Action.Email];
      var existingData := storage.waitlistUser;
      var parsedExisting := if existingData.Some? then existingData.value else map[];
      storage.waitlistUser := Some(MergedRecord(parsedExisting, email, entry, userWalletAddress,
        userTwitterUsername, twitterDone, userDiscordUsername, discordDone, now));
    }

    /** `handleWalletSuccess`: the stored record, if any, gets the address and a fresh `updated_at`. */
    method HandleWalletSuccess(storage: LocalStorage, walletAddress: string, now: string)
      modifies this`userWalletAddress, this`completedActions, storage
      ensures userWalletAddress == JStr(walletAddress) && completedActions == old(completedActions) + [Action.Address]
      ensures storage.waitlistUser ==
        if old(storage.waitlistUser).Some? then Some(WithWallet(old(storage.waitlistUser).value, walletAddress, now))
        else None
    {
      userWalletAddress := JStr(walletAddress);
      completedActions := completedActions + [Action.Address];
      var userData := storage.waitlistUser;
      if userData.Some? {
        storage.waitlistUser := Some(WithWallet(userData.value, walletAddress, now));
      }
    }

    /** `handleTwitterSuccess`: the stored record, if any, gets the username, the follow flag and `updated_at`. */
    method HandleTwitterSuccess(storage: LocalStorage, twitterUsername: string, now: string)
      modifies this`userTwitterUsername, this`completedActions, storage
      ensures userTwitterUsername == JStr(twitterUsername) && completedActions == old(completedActions) + [Action.Twitter]
      ensures storage.waitlistUser ==
        if old(storage.waitlistUser).Some? then Some(WithTwitter(old(storage.waitlistUser).value, twitterUsername, now))
        else None
    {
      userTwitterUsername := JStr(twitterUsername);
      completedActions := completedActions + [Action.Twitter];
      var userData := storage.waitlistUser;
      if userData.Some? {
        storage.waitlistUser := Some(WithTwitter(userData.value, twitterUsername, now));
      }
    }

    /** `handleDiscordSuccess`: the stored record, if any, gets the username, the join flag and `updated_at`. */
    method HandleDiscordSuccess(storage: LocalStorage, discordUsername: string, now: string)
      modifies this`userDiscordUsername, this`completedActions, storage
      ensures userDiscordUsername == JStr(discordUsername) && completedActions == old(completedActions) + [Action.Discord]
      ensures storage.waitlistUser ==
        if old(storage.waitlistUser).Some? then Some(WithDiscord(old(storage.waitlistUser).value, discordUsername, now))
        else None
    {
      userDiscordUsername := JStr(discordUsername);
      completedActions := completedActions + [Action.Discord];
      var userData := storage.waitlistUser;
      if userData.Some? {
        storage.waitlistUser := Some(WithDiscord(userData.value, discordUsername, now));
      }
    }

    /** The Enter button: navigation to `/dashboard` happens exactly when all four actions are done. */
    method EnterClicked() returns (navigate: bool)
      ensures navigate <==> Action.Email in completedActions && Action.Address in completedActions
                            && Action.Twitter in completedActions && Action.Discord in completedActions
    {
      navigate := false;
      if AllActionsCompleted(completedActions) {
        navigate := true;
      }
    }
  }
}
