/**
 * The hosted database as the application sees it, and the three guarded
 * helpers of `src/utils/supabaseUtils.ts`. Each call's network outcome is a
 * `Fault` argument; none of the helpers lets a fault escape as an exception.
 */
module SupabaseUtils {
  import opened Common
  import opened Schema

  /** `{success: true, data}` or `{success: false, error}` from the connection probe. */
  datatype ConnectionStatus = Connected(data: seq<string>) | ConnectionFailed(error: string)

  /** `{success: true, data}` or `{success: false, error}` from `safelyUpdateUser`. */
  datatype UpdateResult = Updated(data: Entry) | UpdateFailed(error: string)

  /** The outcomes of the two calls `safelyUpdateUser` makes: the existence check and the update. */
  datatype UpdateFaults = UpdateFaults(check: Fault, update: Fault)

  const NoUpdateFaults := UpdateFaults(NoFault, NoFault)

  /** When `safelyUpdateUser` succeeds: the row is found and the update goes through. */
  predicate UpdateSucceeds(entries: map<string, Entry>, email: string, faults: UpdateFaults) {
    faults.check.NoFault? && email in entries && faults.update.NoFault?
  }

  /** The table after `update(patch).eq('email', email)`: the row with that email, if any, is patched. */
  function AfterUpdate(entries: map<string, Entry>, email: string, patch: Patch): (r: map<string, Entry>)
    ensures r.Keys == entries.Keys
    ensures email in entries ==> r[email] == Apply(entries[email], patch)
    ensures forall key | key in entries && key != email :: r[key] == entries[key]
  {
    if email in entries then entries[email := Apply(entries[email], patch)] else entries
  }

  /**
   * The two tables: `waitlist_entries`, keyed by its unique `email` column,
   * and the `referrals` rows in insertion order.
   */
  class Database {
    var entries: map<string, Entry>
    var referrals: seq<Referral>

    /** Every row is stored under its own email. */
    ghost predicate Valid()
      reads this
    {
      forall key | key in entries :: entries[key].email == key
    }

    constructor ()
      ensures Valid() && entries == map[] && referrals == []
    {
      entries := map[];
      referrals := [];
    }

    /**
     * `checkSupabaseConnection`: `select('id').limit(1)`. It never throws; on
     * success the data holds the id of at most one row, and none exactly
     * when the table is empty.
     */
    method CheckSupabaseConnection(fault: Fault) returns (r: ConnectionStatus)
      ensures r.Connected? <==> fault.NoFault?
      ensures r.Connected? ==> |r.data| <= 1 && (r.data == [] <==> entries == map[])
      ensures r.Connected? ==> forall id <- r.data :: exists key | key in entries :: entries[key].id == id
      ensures r.ConnectionFailed? ==> r.error == ErrorText(fault)
    {
      if !fault.NoFault? {
        return ConnectionFailed(ErrorText(fault));
      }
      if entries == map[] {
        return Connected([]);
      }
      var key :| key in entries;
      return Connected([entries[key].id]);
    }

    /**
     * `validateUserExists`: true exactly when the lookup by email returns a
     * row. Not found (PGRST116), any other query error and a thrown
     * exception all give false, so an error cannot be told from absence.
     */
    method ValidateUserExists(email: string, fault: Fault) returns (found: bool)
      ensures found <==> fault.NoFault? && email in entries
    {
      match fault {
        case NoFault =>
          // `.single()` reports PGRST116 when no row matches; then `data` is null.
          found := email in entries;
        case QueryError(code, _) =>
          // Whether or not the code is PGRST116, `data` is null.
          found := false;
        case Threw(_) =>
          found := false;
        case ThrewNonError =>
          found := false;
      }
    }

    /**
     * `safelyUpdateUser`: check that the row exists, then update it. A
     * missing row gives "User not found" and changes nothing; a failed
     * update gives its message and changes nothing; otherwise exactly the
     * row with that email changes, by the patch, and is returned.
     */
    method SafelyUpdateUser(email: string, updates: Patch, faults: UpdateFaults) returns (r: UpdateResult)
      requires Valid()
      modifies this
      ensures Valid()
      ensures r.Updated? <==> UpdateSucceeds(old(entries), email, faults)
      ensures !(faults.check.NoFault? && email in old(entries)) ==> r == UpdateFailed("User not found")
      ensures faults.check.NoFault? && email in old(entries) && !faults.update.NoFault? ==>
                r == UpdateFailed(ErrorText(faults.update))
      ensures r.Updated? ==> r.data == Apply(old(entries)[email], updates)
      ensures entries == if r.Updated? then AfterUpdate(old(entries), email, updates) else old(entries)
      ensures referrals == old(referrals)
    {
      var userExists := ValidateUserExists(email, faults.check);
      if !userExists {
        return UpdateFailed("User not found");
      }
      if !faults.update.NoFault? {
        return UpdateFailed(ErrorText(faults.update));
      }
      var row := Apply(entries[email], updates);
      entries := entries[email := row];
      return Updated(row);
    }
  }
}
