/**
 * `src/components/DiscordVerificationDialog.tsx`: the username check (a new
 * style name or a legacy `name#1234`), the submit step from `initial` to
 * `joining`, and the confirm step with the same forced-success retry as the
 * Twitter dialog.
 */
module DiscordDialog {
  import opened Common
  import opened JsText
  import opened Schema
  import opened Session
  import opened SupabaseUtils
  import opened UseWaitlist

  /** The `joinStage` state: `"initial"`, `"joining"`, `"completed"`. */
  datatype JoinStage = Initial | Joining | Completed

  const EmptyUsernameMessage := "Please enter your Discord username"
  const InvalidUsernameMessage := "Please enter a valid Discord username"

  /** A hand-written scan for `\d*`. */
  predicate IsDigitRun(s: string) {
    s == [] || (IsDigit(s[0]) && IsDigitRun(s[1..]))
  }

  lemma {:induction false} DigitRunAll(s: string)
    ensures IsDigitRun(s) <==> forall k | 0 <= k < |s| :: IsDigit(s[k])
  {
    if s != [] {
      DigitRunAll(s[1..]);
      assert forall k | 1 <= k < |s| :: s[k] == s[1..][k - 1];
    }
  }

  /** The input ends in `#` and four digits. */
  predicate HasDiscriminator(s: string) {
    |s| >= 5 && s[|s| - 5] == '#' && IsDigitRun(s[|s| - 4..])
  }

  /**
   * `validateDiscordUsername`, the regex `^[a-zA-Z0-9_]{2,32}(#\d{4})?$`:
   * after an optional `#dddd` suffix is set aside, 2 to 32 word characters.
   * An accepted username therefore has 2 to 37 characters;
   * `DiscordUsernameIff` gives the full reading.
   */
  predicate ValidateDiscordUsername(username: string): (r: bool)
    ensures r ==> 2 <= |username| <= 37
  {
    var name := if HasDiscriminator(username) then username[..|username| - 5] else username;
    2 <= |name| <= 32 && IsWordRun(name)
  }

  /** `s` splits after `n` characters into a name the regex accepts and an empty or `#dddd` suffix. */
  predicate IsDiscordSplit(s: string, n: nat)
    requires n <= |s|
  {
    2 <= n <= 32 && (forall k | 0 <= k < n :: IsWordChar(s[k]))
    && (n == |s| || (|s| == n + 5 && s[n] == '#' && forall k | n < k < |s| :: IsDigit(s[k])))
  }

  /** What the regex matches, stated directly. */
  ghost predicate MatchesDiscordPattern(s: string) {
    exists n: nat | n <= |s| :: IsDiscordSplit(s, n)
  }

  /** The four characters after the `#` of a discriminator are digits. */
  lemma DiscriminatorDigits(s: string)
    requires HasDiscriminator(s)
    ensures forall k | |s| - 5 < k < |s| :: IsDigit(s[k])
  {
    DigitRunAll(s[|s| - 4..]);
    assert forall k | |s| - 5 < k < |s| :: s[k] == s[|s| - 4..][k - (|s| - 4)];
  }

  lemma DiscordValidMatches(s: string)
    requires ValidateDiscordUsername(s)
    ensures MatchesDiscordPattern(s)
  {
    var n := if HasDiscriminator(s) then |s| - 5 else |s|;
    var name := if HasDiscriminator(s) then s[..|s| - 5] else s;
    assert |name| == n && forall k | 0 <= k < n :: name[k] == s[k];
    WordRunAll(name);
    if HasDiscriminator(s) {
      DiscriminatorDigits(s);
    }
    assert IsDiscordSplit(s, n);
  }

  lemma DiscordMatchedValid(s: string)
    requires MatchesDiscordPattern(s)
    ensures ValidateDiscordUsername(s)
  {
    var n: nat :| n <= |s| && IsDiscordSplit(s, n);
    if n == |s| {
      assert |s| >= 5 ==> IsWordChar(s[|s| - 5]);
      assert !HasDiscriminator(s);
      WordRunAll(s);
    } else {
      assert forall k | n < k < |s| :: s[|s| - 4..][k - n - 1] == s[k];
      DigitRunAll(s[|s| - 4..]);
      assert HasDiscriminator(s);
      WordRunAll(s[..n]);
      assert forall k | 0 <= k < n :: s[k] == s[..n][k];
    }
  }

  /** The scanner accepts exactly the strings the regex matches. */
  lemma DiscordUsernameIff(s: string)
    ensures ValidateDiscordUsername(s) <==> MatchesDiscordPattern(s)
  {
    if ValidateDiscordUsername(s) {
      DiscordValidMatches(s);
    }
    if MatchesDiscordPattern(s) {
      DiscordMatchedValid(s);
    }
  }

  /**
   * The dialog's `while (!verified && attempts < 3)` loop around `VerifyDiscordJoin`:
   * it stops at the first success, and a failed attempt changes nothing.
   */
  method JoinWithRetry(db: Database, email: string, username: string, now: string, faults: seq<UpdateFaults>)
    returns (attempts: nat)
    requires db.Valid()
    modifies db
    ensures db.Valid() && db.referrals == old(db.referrals)
    ensures attempts == AttemptsUsed(old(db.entries), email, faults)
    ensures db.entries == (if UpdateSucceeds(old(db.entries), email, FaultAt(faults, attempts - 1))
                           then AfterUpdate(old(db.entries), email, DiscordPatch(username, now))
                           else old(db.entries))
  {
    attempts := 0;
    ghost var entries0 := db.entries;
    var verified := false;
    while !verified && attempts < 3
      invariant 0 <= attempts <= 3
      invariant db.Valid() && db.referrals == old(db.referrals)
      invariant forall i | 0 <= i < (if verified then attempts - 1 else attempts) ::
        !UpdateSucceeds(entries0, email, FaultAt(faults, i))
      invariant verified ==> 1 <= attempts && UpdateSucceeds(entries0, email, FaultAt(faults, attempts - 1))
      invariant db.entries == if verified then AfterUpdate(entries0, email, DiscordPatch(username, now)) else entries0
      decreases 3 - attempts
    {
      attempts := attempts + 1;
      verified := VerifyDiscordJoin(db, email, username, now, FaultAt(faults, attempts - 1));
      if verified {
        break;
      }
      // The one-second pause before the next attempt is not modelled.
    }
    AttemptsUsedUnique(entries0, email, faults, attempts);
  }

  /** The dialog's state. */
  class Dialog {
    var discordUsername: string
    var validationError: string
    var joinStage: JoinStage

    constructor ()
      ensures discordUsername == "" && validationError == "" && joinStage == Initial
    {
      discordUsername := "";
      validationError := "";
      joinStage := Initial;
    }

    /** The input's `onChange`. */
    method SetInput(text: string)
      modifies this`discordUsername
      ensures discordUsername == text
    {
      discordUsername := text;
    }

    /**
     * `handleSubmit`: validates the trimmed input (no `@` is stripped) and
     * moves the stage to `joining`. The input itself is left untrimmed.
     */
    method HandleSubmit()
      modifies this`validationError, this`joinStage
      ensures AllSpace(discordUsername) ==> validationError == EmptyUsernameMessage && joinStage == old(joinStage)
      ensures !AllSpace(discordUsername) && !ValidateDiscordUsername(Trim(discordUsername)) ==>
        validationError == InvalidUsernameMessage && joinStage == old(joinStage)
      ensures !AllSpace(discordUsername) && ValidateDiscordUsername(Trim(discordUsername)) ==>
        validationError == "" && joinStage == Joining
    {
      TrimEmptyIff(discordUsername);
      SubmitTrimmed(Trim(discordUsername));
    }

    /** The body of `handleSubmit` once `discordUsername.trim()` is computed. */
    method SubmitTrimmed(trimmed: string)
      modifies this`validationError, this`joinStage
      ensures trimmed == "" ==> validationError == EmptyUsernameMessage && joinStage == old(joinStage)
      ensures trimmed != "" && !ValidateDiscordUsername(trimmed) ==>
        validationError == InvalidUsernameMessage && joinStage == old(joinStage)
      ensures trimmed != "" && ValidateDiscordUsername(trimmed) ==> validationError == "" && joinStage == Joining
    {
      validationError := "";
      if trimmed == "" {
        validationError := EmptyUsernameMessage;
        return;
      }
      if !ValidateDiscordUsername(trimmed) {
        validationError := InvalidUsernameMessage;
        return;
      }
      // Opening the invite and the toast are not modelled.
      joinStage := Joining;
      validationError := "";
    }

    /**
     * `handleConfirmJoin`. Without a stored record that has an email,
     * nothing happens. Otherwise `verifyDiscordJoin` is called with the
     * trimmed input until it succeeds, at most three times; then, whatever
     * the attempts returned, the stored record gets the trimmed username and
     * the join flag, the stage becomes `completed`, and `onSuccess` receives
     * the trimmed username.
     */
    method HandleConfirmJoin(db: Database, storage: LocalStorage, now: string, faults: seq<UpdateFaults>)
      returns (attempts: nat, notified: Option<string>)
      requires db.Valid()
      modifies this`joinStage, db, storage
      ensures db.Valid() && db.referrals == old(db.referrals)
      ensures !HasStoredEmail(old(storage.waitlistUser)) ==>
        attempts == 0 && notified.None? && joinStage == old(joinStage)
        && storage.waitlistUser == old(storage.waitlistUser) && db.entries == old(db.entries)
      ensures HasStoredEmail(old(storage.waitlistUser)) ==>
        var email, username := StoredEmail(old(storage.waitlistUser)), Trim(discordUsername);
        attempts == AttemptsUsed(old(db.entries), email, faults)
        && db.entries == (if UpdateSucceeds(old(db.entries), email, FaultAt(faults, attempts - 1))
                          then AfterUpdate(old(db.entries), email, DiscordPatch(username, now))
                          else old(db.entries))
        && storage.waitlistUser == Some(WithDiscord(old(storage.waitlistUser).value, username, now))
        && joinStage == Completed && notified == Some(username)
    {
      var username := Trim(discordUsername);
      attempts, notified := ConfirmJoinAs(db, storage, username, now, faults);
    }

    /** The body of `handleConfirmJoin` once `discordUsername.trim()` is computed. */
    method ConfirmJoinAs(db: Database, storage: LocalStorage, username: string, now: string, faults: seq<UpdateFaults>)
      returns (attempts: nat, notified: Option<string>)
      requires db.Valid()
      modifies this`joinStage, db, storage
      ensures db.Valid() && db.referrals == old(db.referrals)
      ensures !HasStoredEmail(old(storage.waitlistUser)) ==>
        attempts == 0 && notified.None? && joinStage == old(joinStage)
        && storage.waitlistUser == old(storage.waitlistUser) && db.entries == old(db.entries)
      ensures HasStoredEmail(old(storage.waitlistUser)) ==>
        var email := StoredEmail(old(storage.waitlistUser));
        attempts == AttemptsUsed(old(db.entries), email, faults)
        && db.entries == (if UpdateSucceeds(old(db.entries), email, FaultAt(faults, attempts - 1))
                          then AfterUpdate(old(db.entries), email, DiscordPatch(username, now))
                          else old(db.entries))
        && storage.waitlistUser == Some(WithDiscord(old(storage.waitlistUser).value, username, now))
        && joinStage == Completed && notified == Some(username)
    {
      attempts, notified := 0, None;
      var userData := storage.waitlistUser;
      if !HasStoredEmail(userData) {
        return;
      }
      var parsedData := userData.value;
      var email := StoredEmail(userData);
      // Whatever the attempts returned, success is forced after them.
      attempts := JoinWithRetry(db, email, username, now, faults);
      storage.waitlistUser := Some(WithDiscord(parsedData, username, now));
      joinStage := Completed;
      notified := Some(username);
    }
  }
}
