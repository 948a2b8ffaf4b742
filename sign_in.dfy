/**
 * `src/pages/SignIn.tsx`: the sign-in page. Its handler runs three input
 * checks in order, looks the trimmed email up, and on a match stores the
 * row as the session record. The password is asked for but never compared
 * with anything.
 */
module SignIn {
  import opened Common
  import opened JsText
  import opened Schema
  import opened Session
  import opened SupabaseUtils
  import opened EmailModal

  const EmailRequiredMessage := "Please enter your email address."
  const InvalidFormatMessage := "Please enter a valid email address."
  const PasswordRequiredMessage := "Please enter your password."
  const InvalidCredentialsMessage := "Invalid email or password. Please try again."
  const GenericErrorMessage := "Something went wrong. Please try again."

  /** The end of one sign-in attempt: the row found, or the message of the toast shown. */
  datatype Outcome = SignedIn(row: Entry) | Rejected(message: string)

  /**
   * The toast text for an exception caught by the handler: the invalid
   * credentials message when its `message` is `'Invalid credentials'`, the
   * generic one otherwise (including a thrown non-`Error`, whose `message`
   * is `undefined`).
   */
  function CaughtMessage(thrown: Fault): (m: string)
    ensures m == InvalidCredentialsMessage <==> thrown.Threw? && thrown.message == "Invalid credentials"
    ensures m == InvalidCredentialsMessage || m == GenericErrorMessage
  {
    if thrown.Threw? && thrown.message == "Invalid credentials" then InvalidCredentialsMessage else GenericErrorMessage
  }

  /**
   * What `handleSignIn` decides for the given inputs, table and lookup
   * outcome. The emptiness check is on the raw email, the format check on
   * its trim. A success returns the row stored under the trimmed email, and
   * a rejection carries one of the five messages the page shows.
   */
  function SignInOutcome(email: string, password: string, entries: map<string, Entry>, lookup: Fault): (o: Outcome)
    ensures o.SignedIn? ==> password != "" && Trim(email) in entries && o.row == entries[Trim(email)]
    ensures o.Rejected? ==>
      o.message in {EmailRequiredMessage, InvalidFormatMessage, PasswordRequiredMessage, InvalidCredentialsMessage, GenericErrorMessage}
  {
    if email == "" then Rejected(EmailRequiredMessage)
    else CheckedOutcome(Trim(email), password, entries, lookup)
  }

  /** The rest of `handleSignIn` once the raw email is known to be non-empty and has been trimmed. */
  function CheckedOutcome(key: string, password: string, entries: map<string, Entry>, lookup: Fault): (o: Outcome)
    ensures o.SignedIn? ==> password != "" && key in entries && o.row == entries[key]
    ensures o.Rejected? ==>
      o.message in {InvalidFormatMessage, PasswordRequiredMessage, InvalidCredentialsMessage, GenericErrorMessage}
  {
    if !IsValidEmail(key) then Rejected(InvalidFormatMessage)
    else if password == "" then Rejected(PasswordRequiredMessage)
    else
      match lookup
      case NoFault =>
        // `.single()` on no row reports an error; either way `Error('Invalid credentials')` is thrown.
        if key in entries && entries[key].email == key then SignedIn(entries[key])
        else Rejected(InvalidCredentialsMessage)
      case QueryError(_, _) => Rejected(InvalidCredentialsMessage)
      case _ => Rejected(CaughtMessage(lookup))
  }

  /** `JSON.stringify({...user, updated_at: now})`, read back. */
  function SessionOf(row: Entry, now: string): (r: Record)
    ensures r.Keys == EntryRecord(row).Keys
    ensures Field(r, Key.UpdatedAt) == JStr(now)
    ensures forall key | key in r && key != Key.UpdatedAt :: r[key] == EntryRecord(row)[key]
  {
    EntryRecord(row)[Key.UpdatedAt := JStr(now)]
  }

  /** Any two non-empty passwords give the same outcome: only the email decides. */
  lemma PasswordIgnored(email: string, p1: string, p2: string, entries: map<string, Entry>, lookup: Fault)
    requires p1 != "" && p2 != ""
    ensures SignInOutcome(email, p1, entries, lookup) == SignInOutcome(email, p2, entries, lookup)
  {
  }

  /**
   * Sign-in succeeds exactly when the inputs pass the checks, the lookup
   * meets no fault and the table holds a row under the trimmed email; the
   * row is then the one returned.
   */
  lemma SignInSucceedsIff(email: string, password: string, entries: map<string, Entry>, lookup: Fault)
    requires forall key | key in entries :: entries[key].email == key
    ensures SignInOutcome(email, password, entries, lookup).SignedIn? <==>
      IsValidEmail(Trim(email)) && password != "" && lookup.NoFault? && Trim(email) in entries
    ensures SignInOutcome(email, password, entries, lookup).SignedIn? ==>
      SignInOutcome(email, password, entries, lookup).row == entries[Trim(email)]
  {
    if IsValidEmail(Trim(email)) {
      assert Trim(email) != "";
    }
  }

  /**
   * The raw email is checked for emptiness before it is trimmed, so input
   * of white space alone gets the format message, not the missing-email one.
   */
  lemma BlankEmailGetsFormatMessage(email: string, password: string, entries: map<string, Entry>, lookup: Fault)
    requires email != "" && AllSpace(email)
    ensures SignInOutcome(email, password, entries, lookup) == Rejected(InvalidFormatMessage)
  {
    TrimEmptyIff(email);
  }

  /** The page's inputs. */
  class Page {
    var email: string
    var password: string

    constructor ()
      ensures email == "" && password == ""
    {
      email := "";
      password := "";
    }

    /** The inputs' `onChange` handlers. */
    method SetInputs(emailText: string, passwordText: string)
      modifies this
      ensures email == emailText && password == passwordText
    {
      email := emailText;
      password := passwordText;
    }

    /**
     * `handleSignIn`: the outcome `SignInOutcome` describes; on success the
     * session record becomes the found row with a fresh `updated_at`, and
     * otherwise the stored record is left alone.
     */
    method HandleSignIn(db: Database, storage: LocalStorage, now: string, lookup: Fault) returns (outcome: Outcome)
      modifies storage
      ensures outcome == SignInOutcome(email, password, db.entries, lookup)
      ensures storage.waitlistUser == if outcome.SignedIn? then Some(SessionOf(outcome.row, now)) else old(storage.waitlistUser)
    {
      if email == "" {
        return Rejected(EmailRequiredMessage);
      }
      var trimmed := Trim(email);
      assert SignInOutcome(email, password, db.entries, lookup) == CheckedOutcome(trimmed, password, db.entries, lookup);
      outcome := SignInAs(db, storage, trimmed, now, lookup);
    }

    /** The body of `handleSignIn` after the emptiness check, once `email.trim()` is computed. */
    method SignInAs(db: Database, storage: LocalStorage, trimmed: string, now: string, lookup: Fault) returns (outcome: Outcome)
      modifies storage
      ensures outcome == CheckedOutcome(trimmed, password, db.entries, lookup)
      ensures storage.waitlistUser == if outcome.SignedIn? then Some(SessionOf(outcome.row, now)) else old(storage.waitlistUser)
    {
      if !IsValidEmail(trimmed) {
        return Rejected(InvalidFormatMessage);
      }
      if password == "" {
        return Rejected(PasswordRequiredMessage);
      }
      // The query `.eq('email', email.trim()).single()`.
      if !lookup.NoFault? {
        if lookup.QueryError? {
          // `if (error || !user) throw new Error('Invalid credentials')`.
          return Rejected(InvalidCredentialsMessage);
        }
        return Rejected(CaughtMessage(lookup));
      }
      if trimmed !in db.entries {
        return Rejected(InvalidCredentialsMessage);
      }
      var user := db.entries[trimmed];
      if user.email == trimmed {
        storage.waitlistUser := Some(SessionOf(user, now));
        // The toast and the redirect to `/dashboard` are not modelled.
        return SignedIn(user);
      }
      return Rejected(InvalidCredentialsMessage);
    }
  }
}
