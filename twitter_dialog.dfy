/**
 * `src/components/TwitterVerificationDialog.tsx`: the username check, the
 * submit step that moves the dialog from `initial` to `following`, and the
 * confirm step with its three-attempt retry that ends in success whatever
 * the attempts return.
 */
module TwitterDialog {
  import opened Common
  import opened JsText
  import opened Schema
  import opened Session
  import opened SupabaseUtils
  import opened UseWaitlist

  /** The `followStage` state: `"initial"`, `"following"`, `"completed"`. */
  datatype FollowStage = Initial | Following | Completed

  const EmptyUsernameMessage := "Please enter your Twitter username"
  const InvalidUsernameMessage := "Please enter a valid Twitter username (1-15 characters, alphanumeric and underscores)"

  /**
   * `validateTwitterUsername`, the regex `^[a-zA-Z0-9_]{1,15}$`: a username
   * is accepted exactly when it has 1 to 15 characters, all letters, digits
   * or `_`.
   */
  predicate ValidateTwitterUsername(username: string): (r: bool)
    ensures r <==> 1 <= |username| <= 15 && forall k | 0 <= k < |username| :: IsWordChar(username[k])
  {
    WordRunAll(username);
    1 <= |username| <= 15 && IsWordRun(username)
  }

  /** `.replace(/^@/, "")`: drops one leading `@`, if there is one. */
  function StripAt(s: string): (r: string)
    ensures s != [] && s[0] == '@' ==> r == s[1..]
    ensures !(s != [] && s[0] == '@') ==> r == s
  {
    if s != [] && s[0] == '@' then s[1..] else s
  }

  /** `twitterUsername.trim().replace(/^@/, "")`. */
  function FormatUsername(input: string): string {
    StripAt(Trim(input))
  }

  /**
   * A username that submit accepted is stored in a form that formats to
   * itself: submitting it again stores the same text, and it has no
   * white space and no `@`.
   */
  lemma AcceptedUsernameIsStable(input: string)
    requires ValidateTwitterUsername(FormatUsername(input))
    ensures FormatUsername(FormatUsername(input)) == FormatUsername(input)
    ensures forall k | 0 <= k < |FormatUsername(input)| ::
      !IsJsSpace(FormatUsername(input)[k]) && FormatUsername(input)[k] != '@'
  {
    var u := FormatUsername(input);
    assert !IsJsSpace(u[0]) && !IsJsSpace(u[|u| - 1]);
    TrimIdentity(u);
  }

  /**
   * The dialog's `while (!verified && attempts < 3)` loop around `VerifyTwitterFollow`:
   * it stops at the first success, and a failed attempt changes nothing.
   */
  method FollowWithRetry(db: Database, email: string, username: string, now: string, faults: seq<UpdateFaults>)
    returns (attempts: nat)
    requires db.Valid()
    modifies db
    ensures db.Valid() && db.referrals == old(db.referrals)
    ensures attempts == AttemptsUsed(old(db.entries), email, faults)
    ensures db.entries == (if UpdateSucceeds(old(db.entries), email, FaultAt(faults, attempts - 1))
                           then AfterUpdate(old(db.entries), email, TwitterPatch(username, now))
                           else old(db.entries))
  {
    attempts := 0;
    ghost var entries0 := db.entries;
    var verified := false;
    while !verified && attempts < 3
      invariant 0 <= attempts <= 3
      invariant db.Valid() && db.referrals == old(db.referrals)
      invariant forall i | 0 <= i < (if verified then attempts - 1 else attempts) ::
        !UpdateSucceeds(entries0, email, FaultAt(faults, i))
      invariant verified ==> 1 <= attempts && UpdateSucceeds(entries0, email, FaultAt(faults, attempts - 1))
      invariant db.entries == if verified then AfterUpdate(entries0, email, TwitterPatch(username, now)) else entries0
      decreases 3 - attempts
    {
      attempts := attempts + 1;
      verified := VerifyTwitterFollow(db, email, username, now, FaultAt(faults, attempts - 1));
      if verified {
        break;
      }
      // The one-second pause before the next attempt is not modelled.
    }
    AttemptsUsedUnique(entries0, email, faults, attempts);
  }

  /** The dialog's state. */
  class Dialog {
    var twitterUsername: string
    var validationError: string
    var followStage: FollowStage

    constructor ()
      ensures twitterUsername == "" && validationError == "" && followStage == Initial
    {
      twitterUsername := "";
      validationError := "";
      followStage := Initial;
    }

    /** The input's `onChange`. */
    method SetInput(text: string)
      modifies this`twitterUsername
      ensures twitterUsername == text
    {
      twitterUsername := text;
    }

    /**
     * `handleSubmit`: white space alone and an invalid username leave the
     * stage and the input as they were and set the matching error; a valid
     * username moves the stage to `following` and replaces the input with the
     * trimmed, `@`-stripped text.
     */
    method HandleSubmit()
      modifies this
      ensures AllSpace(old(twitterUsername)) ==>
        validationError == EmptyUsernameMessage && twitterUsername == old(twitterUsername) && followStage == old(followStage)
      ensures !AllSpace(old(twitterUsername)) && !ValidateTwitterUsername(FormatUsername(old(twitterUsername))) ==>
        validationError == InvalidUsernameMessage && twitterUsername == old(twitterUsername) && followStage == old(followStage)
      ensures !AllSpace(old(twitterUsername)) && ValidateTwitterUsername(FormatUsername(old(twitterUsername))) ==>
        validationError == "" && twitterUsername == FormatUsername(old(twitterUsername)) && followStage == Following
    {
      validationError := "";
      TrimEmptyIff(twitterUsername);
      if Trim(twitterUsername) == "" {
        validationError := EmptyUsernameMessage;
        return;
      }
      var formattedUsername := StripAt(Trim(twitterUsername));
      if !ValidateTwitterUsername(formattedUsername) {
        validationError := InvalidUsernameMessage;
        return;
      }
      // Opening the profile page and the toast are not modelled.
      followStage := Following;
      twitterUsername := formattedUsername;
      validationError := "";
    }

    /**
     * `handleConfirmFollow`. Without a stored record that has an email,
     * nothing happens. Otherwise `verifyTwitterFollow` is called until it
     * succeeds, at most three times; then, whatever the attempts returned,
     * the stored record gets the username and the follow flag, the stage
     * becomes `completed`, and `onSuccess` receives the username (the
     * returned `notified`). The username sent is the current input text.
     */
    method HandleConfirmFollow(db: Database, storage: LocalStorage, now: string, faults: seq<UpdateFaults>)
      returns (attempts: nat, notified: Option<string>)
      requires db.Valid()
      modifies this`followStage, db, storage
      ensures db.Valid() && db.referrals == old(db.referrals)
      ensures !HasStoredEmail(old(storage.waitlistUser)) ==>
        attempts == 0 && notified.None? && followStage == old(followStage)
        && storage.waitlistUser == old(storage.waitlistUser) && db.entries == old(db.entries)
      ensures HasStoredEmail(old(storage.waitlistUser)) ==>
        var email := StoredEmail(old(storage.waitlistUser));
        attempts == AttemptsUsed(old(db.entries), email, faults)
        && db.entries == (if UpdateSucceeds(old(db.entries), email, FaultAt(faults, attempts - 1))
                          then AfterUpdate(old(db.entries), email, TwitterPatch(twitterUsername, now))
                          else old(db.entries))
        && storage.waitlistUser == Some(WithTwitter(old(storage.waitlistUser).value, twitterUsername, now))
        && followStage == Completed && notified == Some(twitterUsername)
    {
      attempts, notified := 0, None;
      var userData := storage.waitlistUser;
      if !HasStoredEmail(userData) {
        return;
      }
      var parsedData := userData.value;
      var email := StoredEmail(userData);
      // Whatever the attempts returned, success is forced after them.
      attempts := FollowWithRetry(db, email, twitterUsername, now, faults);
      storage.waitlistUser := Some(WithTwitter(parsedData, twitterUsername, now));
      followStage := Completed;
      notified := Some(twitterUsername);
    }
  }
}
