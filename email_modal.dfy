/**
 * `src/components/EmailModal.tsx`: the sign-up form. Its submit handler
 * checks the trimmed email against the address pattern, calls
 * `joinWaitlist`, and on success stamps the entry with the client's time and
 * clears the form.
 */
module EmailModal {
  import opened Common
  import opened JsText
  import opened Schema
  import opened SupabaseUtils
  import opened UseWaitlist

  const EmptyEmailMessage := "Please enter your email address"
  const InvalidEmailMessage := "Please enter a valid email address"

  /** Regex class `[^\s@]`. */
  predicate IsEmailChar(c: char) {
    !IsJsSpace(c) && c != '@'
  }

  predicate AllEmailChars(s: string) {
    forall k | 0 <= k < |s| :: IsEmailChar(s[k])
  }

  /**
   * `/^[^\s@]+@[^\s@]+\.[^\s@]+$/.test(s)`, as a scan: the part before the
   * first `@` is non-empty, neither part holds white space or another `@`,
   * and the part after it has a `.` with at least one character on each side.
   * So an accepted address has a non-empty part before its first `@` and at
   * least three characters after it; `EmailPatternIff` gives the full reading.
   */
  predicate IsValidEmail(s: string): (r: bool)
    ensures r ==> IndexOf(s, '@').Some? && 0 < IndexOf(s, '@').value && IndexOf(s, '@').value + 4 <= |s|
  {
    match IndexOf(s, '@')
    case None => false
    case Some(i) =>
      0 < i && i + 4 <= |s| && AllEmailChars(s[..i]) && AllEmailChars(s[i + 1..])
      && '.' in s[i + 2..|s| - 1]
  }

  /** What the regex matches, stated directly: one `@` and a `.` placed as the pattern demands. */
  ghost predicate MatchesEmailPattern(s: string) {
    exists i, j | 0 < i && i + 1 < j < |s| - 1 ::
      s[i] == '@' && s[j] == '.' && forall k | 0 <= k < |s| && k != i :: IsEmailChar(s[k])
  }

  /** In an accepted address every character but the first `@` is an email character. */
  lemma ValidEmailChars(s: string)
    requires IsValidEmail(s)
    ensures forall k | 0 <= k < |s| && k != IndexOf(s, '@').value :: IsEmailChar(s[k])
  {
    var i := IndexOf(s, '@').value;
    forall k | 0 <= k < |s| && k != i
      ensures IsEmailChar(s[k])
    {
      if k < i {
        assert s[..i][k] == s[k];
      } else {
        assert s[i + 1..][k - i - 1] == s[k];
      }
    }
  }

  lemma ValidEmailMatches(s: string)
    requires IsValidEmail(s)
    ensures MatchesEmailPattern(s)
  {
    var i := IndexOf(s, '@').value;
    ValidEmailChars(s);
    var dom := s[i + 2..|s| - 1];
    var m :| 0 <= m < |dom| && dom[m] == '.';
    assert s[i + 2 + m] == '.';
  }

  lemma MatchedEmailValid(s: string)
    requires MatchesEmailPattern(s)
    ensures IsValidEmail(s)
  {
    var i, j :| 0 < i && i + 1 < j < |s| - 1 && s[i] == '@' && s[j] == '.'
      && forall k | 0 <= k < |s| && k != i :: IsEmailChar(s[k]);
    assert IndexOf(s, '@') == Some(i);
    assert s[i + 2..|s| - 1][j - i - 2] == '.';
  }

  /** The scan accepts exactly the strings the regex matches. */
  lemma EmailPatternIff(s: string)
    ensures IsValidEmail(s) <==> MatchesEmailPattern(s)
  {
    if IsValidEmail(s) {
      ValidEmailMatches(s);
    }
    if MatchesEmailPattern(s) {
      MatchedEmailValid(s);
    }
  }

  /**
   * An accepted address has no white space, so it is its own trim, and it
   * holds exactly one `@`.
   */
  lemma ValidEmailShape(s: string)
    requires IsValidEmail(s)
    ensures forall k | 0 <= k < |s| :: !IsJsSpace(s[k])
    ensures Trim(s) == s
    ensures IndexOf(s, '@').Some? && forall k | 0 <= k < |s| && s[k] == '@' :: k == IndexOf(s, '@').value
  {
    ValidEmailNoSpace(s);
    TrimIdentity(s);
    ValidEmailChars(s);
  }

  lemma ValidEmailNoSpace(s: string)
    requires IsValidEmail(s)
    ensures forall k | 0 <= k < |s| :: !IsJsSpace(s[k])
  {
    var i := IndexOf(s, '@').value;
    ValidEmailChars(s);
    forall k | 0 <= k < |s|
      ensures !IsJsSpace(s[k])
    {
      if k == i {
        assert s[k] == '@';
      } else {
        assert IsEmailChar(s[k]);
      }
    }
  }

  /** What `onSuccess` receives: the trimmed email and the entry with the client's `created_at`. */
  datatype SignUp = SignUp(email: string, entry: Entry)

  /** `name.trim() || undefined`. */
  function OptionalName(name: string): (r: Option<string>)
    ensures r.None? <==> AllSpace(name)
    ensures r.Some? ==> r.value == Trim(name) && r.value != ""
  {
    if IsBlank(name) then None else Some(Trim(name))
  }

  /** The form's state. */
  class Modal {
    var email: string
    var name: string
    var validationError: Option<string>

    constructor ()
      ensures email == "" && name == "" && validationError.None?
    {
      email := "";
      name := "";
      validationError := None;
    }

    /** The inputs' `onChange` handlers. */
    method SetInputs(emailText: string, nameText: string)
      modifies this`email, this`name
      ensures email == emailText && name == nameText
    {
      email := emailText;
      name := nameText;
    }

    /**
     * `handleSubmit`. A blank email and a malformed trimmed email set their
     * message and call nothing. Otherwise `joinWaitlist` gets the trimmed
     * email, the trimmed name or nothing, the referral code, and no wallet;
     * when it returns an entry, `onSuccess` receives the trimmed email and
     * the entry with `created_at` replaced by the client's clock, and both
     * inputs are cleared. When it returns nothing, the form is kept.
     */
    method HandleSubmit(db: Database, referralCode: Option<string>, newId: string, now: string, clientTime: string,
                        faults: JoinFaults)
      returns (signUp: Option<SignUp>)
      requires db.Valid()
      modifies this`email, this`name, this`validationError, db
      ensures db.Valid()
      ensures AllSpace(old(email)) ==>
        validationError == Some(EmptyEmailMessage) && signUp.None?
        && email == old(email) && name == old(name) && db.entries == old(db.entries) && db.referrals == old(db.referrals)
      ensures !AllSpace(old(email)) && !IsValidEmail(Trim(old(email))) ==>
        validationError == Some(InvalidEmailMessage) && signUp.None?
        && email == old(email) && name == old(name) && db.entries == old(db.entries) && db.referrals == old(db.referrals)
      ensures IsValidEmail(Trim(old(email))) ==>
        var e := Trim(old(email));
        validationError.None?
        && (signUp.Some? <==> e !in old(db.entries) && ReferralCode(e).Some? && faults.insert.NoFault?)
        && (signUp.Some? ==>
              var row := NewEntry(newId, e, OptionalName(old(name)), referralCode, None, ReferralCode(e).value, now);
              signUp.value == SignUp(e, row.(createdAt := clientTime))
              && db.entries == old(db.entries)[e := row]
              && db.referrals == old(db.referrals) + ReferralRows(db.entries, e, referralCode, faults)
              && email == "" && name == "")
        && (signUp.None? ==>
              email == old(email) && name == old(name) && db.entries == old(db.entries) && db.referrals == old(db.referrals))
    {
      TrimEmptyIff(email);
      signUp := SubmitTrimmed(db, Trim(email), OptionalName(name), referralCode, newId, now, clientTime, faults);
    }

    /** The body of `handleSubmit` once `email.trim()` and the name argument are computed. */
    method SubmitTrimmed(db: Database, trimmed: string, nameArg: Option<string>, referralCode: Option<string>,
                         newId: string, now: string, clientTime: string, faults: JoinFaults)
      returns (signUp: Option<SignUp>)
      requires db.Valid()
      modifies this`email, this`name, this`validationError, db
      ensures db.Valid()
      ensures trimmed == "" ==>
        validationError == Some(EmptyEmailMessage) && signUp.None?
        && email == old(email) && name == old(name) && db.entries == old(db.entries) && db.referrals == old(db.referrals)
      ensures trimmed != "" && !IsValidEmail(trimmed) ==>
        validationError == Some(InvalidEmailMessage) && signUp.None?
        && email == old(email) && name == old(name) && db.entries == old(db.entries) && db.referrals == old(db.referrals)
      ensures IsValidEmail(trimmed) ==>
        validationError.None?
        && (signUp.Some? <==> trimmed !in old(db.entries) && ReferralCode(trimmed).Some? && faults.insert.NoFault?)
        && (signUp.Some? ==>
              var row := NewEntry(newId, trimmed, nameArg, referralCode, None, ReferralCode(trimmed).value, now);
              signUp.value == SignUp(trimmed, row.(createdAt := clientTime))
              && db.entries == old(db.entries)[trimmed := row]
              && db.referrals == old(db.referrals) + ReferralRows(db.entries, trimmed, referralCode, faults)
              && email == "" && name == "")
        && (signUp.None? ==>
              email == old(email) && name == old(name) && db.entries == old(db.entries) && db.referrals == old(db.referrals))
    {
      signUp := None;
      validationError := None;
      if trimmed == "" {
        validationError := Some(EmptyEmailMessage);
        return;
      }
      if !IsValidEmail(trimmed) {
        validationError := Some(InvalidEmailMessage);
        return;
      }
      signUp := JoinAs(db, trimmed, nameArg, referralCode, newId, now, clientTime, faults);
    }

    /** The part of `handleSubmit` after the email passed the pattern: the call and the success branch. */
    method JoinAs(db: Database, trimmed: string, nameArg: Option<string>, referralCode: Option<string>,
                  newId: string, now: string, clientTime: string, faults: JoinFaults)
      returns (signUp: Option<SignUp>)
      requires db.Valid()
      modifies this`email, this`name, db
      ensures db.Valid()
      ensures signUp.Some? <==> trimmed !in old(db.entries) && ReferralCode(trimmed).Some? && faults.insert.NoFault?
      ensures signUp.Some? ==>
        var row := NewEntry(newId, trimmed, nameArg, referralCode, None, ReferralCode(trimmed).value, now);
        signUp.value == SignUp(trimmed, row.(createdAt := clientTime))
        && db.entries == old(db.entries)[trimmed := row]
        && db.referrals == old(db.referrals) + ReferralRows(db.entries, trimmed, referralCode, faults)
        && email == "" && name == ""
      ensures signUp.None? ==>
        email == old(email) && name == old(name) && db.entries == old(db.entries) && db.referrals == old(db.referrals)
    {
      signUp := None;
      var entry := JoinWaitlist(db, trimmed, nameArg, referralCode, None, newId, now, faults);
      if entry.Some? {
        signUp := Some(SignUp(trimmed, entry.value.(createdAt := clientTime)));
        // The toast and closing the dialog are not modelled.
        email := "";
        name := "";
      }
    }
  }
}
