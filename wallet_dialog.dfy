/**
 * `src/components/WalletVerificationDialog.tsx`: the submit handler, an
 * early-return chain that checks the input, records the address on the
 * stored user's row when there is one, and reports success whatever the
 * database answered.
 */
module WalletDialog {
  import opened Common
  import opened JsText
  import opened Schema
  import opened Session
  import opened SupabaseUtils
  import opened UseWaitlist

  const EmptyAddressMessage := "Please enter your wallet address"
  const InvalidAddressMessage := "Please enter a valid Ethereum wallet address"

  /**
   * The format check runs on the raw input, not on its trim: an address
   * with white space around it is rejected as malformed, not as empty.
   */
  lemma PaddedAddressRejected(address: string, pad: string)
    requires ValidateWalletAddress(address) && pad != [] && AllSpace(pad)
    ensures !IsBlank(pad + address) && !ValidateWalletAddress(pad + address)
    ensures !IsBlank(address + pad) && !ValidateWalletAddress(address + pad)
  {
    assert (pad + address)[|pad|] == '0' && (address + pad)[0] == '0';
    assert !IsJsSpace('0');
  }

  /** The dialog's state. */
  class Dialog {
    var walletAddress: string
    var validationError: string

    constructor ()
      ensures walletAddress == "" && validationError == ""
    {
      walletAddress := "";
      validationError := "";
    }

    /** The input's `onChange`. */
    method SetInput(text: string)
      modifies this`walletAddress
      ensures walletAddress == text
    {
      walletAddress := text;
    }

    /**
     * `handleSubmit`. Blank input and a malformed address set their error
     * and touch nothing else. A well-formed address is written to the row
     * of the stored user, if a stored record with an email exists, through
     * `updateWaitlistEntry`, whose result is ignored; `onSuccess` then
     * receives the address as typed (the returned `notified`). The stored
     * record itself is not changed here.
     */
    method HandleSubmit(db: Database, storage: LocalStorage, faults: UpdateFaults) returns (notified: Option<string>)
      requires db.Valid()
      modifies this`validationError, db
      ensures db.Valid() && db.referrals == old(db.referrals)
      ensures IsBlank(walletAddress) ==>
        validationError == EmptyAddressMessage && notified.None? && db.entries == old(db.entries)
      ensures !IsBlank(walletAddress) && !ValidateWalletAddress(walletAddress) ==>
        validationError == InvalidAddressMessage && notified.None? && db.entries == old(db.entries)
      ensures ValidateWalletAddress(walletAddress) ==>
        validationError == "" && notified == Some(walletAddress)
        && db.entries == (if HasStoredEmail(storage.waitlistUser)
                             && UpdateSucceeds(old(db.entries), StoredEmail(storage.waitlistUser), faults)
                          then AfterUpdate(old(db.entries), StoredEmail(storage.waitlistUser), WalletPatch(walletAddress))
                          else old(db.entries))
    {
      notified := None;
      validationError := "";
      if IsBlank(walletAddress) {
        validationError := EmptyAddressMessage;
        return;
      }
      if !ValidateWalletAddress(walletAddress) {
        validationError := InvalidAddressMessage;
        return;
      }
      var userData := storage.waitlistUser;
      if HasStoredEmail(userData) {
        var _ := UpdateWaitlistEntry(db, StoredEmail(userData), WalletPatch(walletAddress), faults);
      }
      notified := Some(walletAddress);
    }
  }
}
