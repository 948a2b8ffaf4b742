# WaitList: a Dafny model of the sign-up logic

This project models the deterministic logic of the WaitList web application.
That application is a React front end over a hosted database, with the browser's local storage as a session cache.
The model covers:

- **Validators.** The four input checks (wallet address, email, Twitter username, Discord username), each written as a hand-made string scan and proved equal to a direct reading of its regular expression.
- **Referral codes.** The code derived from an email: `btoa`, i.e. Base 64 as in section 4 of RFC 4648 over Latin-1 bytes, cut to 8 characters, with `/`, `+` and `=` replaced by `x`.
- **Database helpers.** The guarded helpers over an in-memory `Database` class: `waitlist_entries` as a map keyed by email, and `referrals` as a sequence in insertion order.
  - The existence check.
  - The check-then-update.
  - The connection probe.
- **Hook operations.** The `useWaitlist` operations: sign-up with its best-effort referral row, the guarded updates, the self-attested Twitter and Discord "verification" writes, and the reads with their error fallbacks.
- **Forms and dialogs.** Each of the following is a class whose methods update its fields:
  - the Twitter, Discord and wallet dialogs;
  - the email form;
  - the sign-in page.
  
  The two social dialogs run a three-attempt retry loop and then force success whatever the attempts returned.
- **The session record.** `waitlist_user` is a map from column keys to JSON values that each handler reads, spreads and writes back.
- **The sign-up page.** It restores the completed actions from that record, merges dialog results into it, and gates the dashboard.
- **The dashboard.** The referral link, the top-ten slice, the user's rank and its `#NNN` text, the referral-count coercion, the email mask and the wallet truncation.

Each database call's outcome is a `Fault` argument: no fault, a query error with a PostgREST code, a thrown `Error`, or another thrown value.
The clock (`now`), new row ids and the leaderboard procedure's rows are also parameters.

Modules follow the source files. These modules model the JavaScript behaviour the code relies on:

- `JsText` covers `trim`, `\s`, `substring`, `padStart`, `indexOf` and `split`.
- `JsNumber` covers `toString` and `parseInt`.
- `Base64` covers the encoding with its decoder.
- `Schema` and `Session` hold the data model.

## Model

| member | source | states |
|---|---|---|
| JsText.WordRunAll | src/components/TwitterVerificationDialog.tsx:29 | The recursive scan accepts a string exactly when every character is in `[a-zA-Z0-9_]`. |
| JsText.Trim | src/components/EmailModal.tsx:29 | `trim()` never lengthens a string, and its result neither starts nor ends with ECMAScript white space. |
| JsText.TrimMeetsReference | src/components/EmailModal.tsx:36 | `trim()` meets an independent definition: the result is the contiguous slice left once white space alone is removed at both ends. |
| JsText.TrimEmptyIff | src/components/WalletVerificationDialog.tsx:34 | Trimming gives the empty string exactly when the input is white space alone, in both directions. |
| JsText.IsBlank | src/components/WalletVerificationDialog.tsx:34 | `!s.trim()` holds exactly for input made only of white space. |
| JsText.TrimIdentity | src/components/EmailModal.tsx:45 | A string with no white space at either end is its own trim. |
| JsText.TrimIdempotent | src/components/DiscordVerificationDialog.tsx:48 | Trimming twice gives the same as trimming once. |
| JsText.Substring | src/pages/ReferralDashboard.tsx:130 | `substring` clamps both ends into the string and swaps them if reversed; its length is the distance between the clamped ends. |
| JsText.SubstringFrom | src/pages/ReferralDashboard.tsx:130 | `substring(start)` is the suffix from the clamped start. |
| JsText.PadStart | src/pages/ReferralDashboard.tsx:47 | `padStart` prepends fill characters up to the target length and never truncates. The result has the larger of the two lengths. |
| JsText.IndexOf | src/pages/ReferralDashboard.tsx:267 | The first position of the character, with no earlier occurrence; none exactly when the character does not occur. |
| JsText.SplitSecond | src/pages/ReferralDashboard.tsx:267 | `split(sep)[1]` is `undefined` exactly when the separator does not occur. |
| JsNumber.NatToString | src/pages/ReferralDashboard.tsx:47 | `toString()` of a natural number is one or more decimal digits, with a leading `0` only for zero itself. |
| JsNumber.DigitPrefix | src/hooks/useWaitlist.ts:198 | `parseInt` reads the longest prefix of digits of the radix: every character in it is a digit, and the next is not. |
| JsNumber.ParseInt | src/hooks/useWaitlist.ts:198 | Blank text, white space alone included, parses to NaN. |
| JsNumber.ParseUnsignedOfDigits | src/hooks/useWaitlist.ts:198 | A plain decimal numeral, read after the sign, denotes its decimal value (no hexadecimal prefix can apply). |
| JsNumber.ParseIntNoSign | src/hooks/useWaitlist.ts:198 | `parseInt` of a string starting with a digit skips nothing and reads no sign. |
| JsNumber.ParseIntMinus | src/hooks/useWaitlist.ts:198 | `parseInt` of `-` followed by text negates what the text parses to. |
| JsNumber.ParseIntOfDigits | src/hooks/useWaitlist.ts:198 | `parseInt` of a decimal numeral is its value. |
| JsNumber.ValueOfNatToString | src/pages/ReferralDashboard.tsx:47 | The digits `toString()` writes denote the number written. |
| JsNumber.ValueOfZeros | src/pages/ReferralDashboard.tsx:47 | A run of zeros denotes 0. |
| JsNumber.ValueIgnoresLeadingZeros | src/pages/ReferralDashboard.tsx:47 | Leading zeros do not change the value of a numeral. |
| JsNumber.DigitPrefixOfDigits | src/hooks/useWaitlist.ts:198 | On a string of decimal digits, the digit prefix is the whole string. |
| JsNumber.TrimStartOfNonSpace | src/hooks/useWaitlist.ts:198 | `parseInt` skips nothing when the first character is not white space. |
| JsNumber.ParseIntOfPadded | src/pages/ReferralDashboard.tsx:47 | The zero-padded decimal text of a number parses back to that number. |
| JsNumber.ParseIntOfToString | src/hooks/useWaitlist.ts:198 | `parseInt(String(n))` is `n` for every integer: numeric counts survive the coercion. |
| JsNumber.ParseIntOfNatString | src/hooks/useWaitlist.ts:198 | The round trip for non-negative integers. |
| JsNumber.ParseIntOfNegativeString | src/hooks/useWaitlist.ts:198 | The round trip for negative integers. |
| Base64.Char | src/hooks/useWaitlist.ts:44 | Every character of the RFC 4648 alphabet is an ASCII letter or digit, `+` or `/`. |
| Base64.SextetOfChar | src/hooks/useWaitlist.ts:44 | Looking a character up in the alphabet inverts the alphabet. |
| Base64.Encode | src/hooks/useWaitlist.ts:44 | `btoa` output is four characters per started group of three bytes, all from the alphabet or `=`. |
| Base64.GroupRoundTrip | src/hooks/useWaitlist.ts:44 | A full 24-bit group decodes back to its three bytes. |
| Base64.OneByteRoundTrip | src/hooks/useWaitlist.ts:44 | A padded one-byte group decodes back to its byte. |
| Base64.TwoBytesRoundTrip | src/hooks/useWaitlist.ts:44 | A padded two-byte group decodes back to its bytes. |
| Base64.DecodeCons | src/hooks/useWaitlist.ts:44 | Decoding a full group followed by more text concatenates the two decodings. |
| Base64.EncodeCons | src/hooks/useWaitlist.ts:44 | Encoding three or more bytes is the encoding of the first group followed by that of the rest. |
| Base64.ThreeBytesRoundTrip | src/hooks/useWaitlist.ts:44 | Exactly three bytes round-trip. |
| Base64.DecodeFullGroupThenRest | src/hooks/useWaitlist.ts:44 | A first group followed by an encoding that round-trips decodes to all the bytes. |
| Base64.FullGroupThenRest | src/hooks/useWaitlist.ts:44 | The inductive step of the round trip for four or more bytes. |
| Base64.DecodeEncode | src/hooks/useWaitlist.ts:44 | Decoding inverts encoding for every byte string, so no two byte strings share an encoding. |
| Base64.FirstEightChars | src/hooks/useWaitlist.ts:44 | The first eight characters of an encoding depend on the first six bytes alone. |
| Schema.Apply | src/utils/supabaseUtils.ts:69-74 | An update sets exactly the columns present in the patch and keeps every other column of the row. |
| Schema.ApplyIdempotent | src/utils/supabaseUtils.ts:69-74 | Sending the same update twice leaves the row as sending it once. |
| Schema.ApplyNoChanges | src/utils/supabaseUtils.ts:69-74 | An update with no columns changes nothing. |
| Schema.ErrorText | src/utils/supabaseUtils.ts:88-93 | A thrown value that is not an `Error` is reported as `'Unknown error'`. |
| Session.Field | src/components/TwitterVerificationDialog.tsx:86 | A key missing from the record reads as null. |
| Session.Or | src/pages/WaitlistSignup.tsx:119 | The JavaScript or of `a` and `b` is truthy exactly when one operand is, is one of the two, and is `a` whenever `a` is truthy. |
| Session.Text | src/pages/ReferralDashboard.tsx:20 | A string value renders in a template literal as itself. |
| Session.Nullable | src/pages/WaitlistSignup.tsx:118 | A nullable column stored in the record is truthy exactly when it holds a non-empty string. |
| Session.EntryRecord | src/pages/SignIn.tsx:63-69 | The stored row keeps its email and referral code. |
| Session.WithWallet | src/pages/WaitlistSignup.tsx:138-144 | The spread sets `wallet_address` and `updated_at` and keeps every other key and value. |
| Session.WithTwitter | src/pages/WaitlistSignup.tsx:157-164 | The spread sets the username, the follow flag and `updated_at`, and keeps everything else. |
| Session.WithDiscord | src/pages/WaitlistSignup.tsx:177-184 | The spread sets the username, the join flag and `updated_at`, and keeps everything else. |
| SupabaseUtils.AfterUpdate | src/utils/supabaseUtils.ts:69-74 | `update().eq('email', e)` patches the row keyed by `e`, if any. Every other row and the key set are unchanged. |
| SupabaseUtils.Database.CheckSupabaseConnection | src/utils/supabaseUtils.ts:4-31 | The probe never throws. It succeeds exactly without a fault, returning at most one id of an existing row, and none exactly for an empty table. A failure carries the fault's message. |
| SupabaseUtils.Database.ValidateUserExists | src/utils/supabaseUtils.ts:34-52 | True exactly when the lookup meets no fault and the row exists. Not-found, any other query error and a thrown exception all give false. |
| SupabaseUtils.Database.SafelyUpdateUser | src/utils/supabaseUtils.ts:55-95 | Succeeds exactly when the row exists and both calls meet no fault. A missing row gives `'User not found'`, a failed update its message, and neither changes anything. On success only that row changes, by the patch, and it is returned. |
| UseWaitlist.HexRunAll | src/hooks/useWaitlist.ts:121 | The scan accepts exactly strings of hexadecimal digits of either case. |
| UseWaitlist.ValidateWalletAddress | src/hooks/useWaitlist.ts:119-123 | The scan accepts an address exactly when it has 42 characters, starts with `0x`, and the other 40 are hexadecimal digits of either case. |
| UseWaitlist.Latin1Bytes | src/hooks/useWaitlist.ts:44 | `btoa` has bytes to encode exactly when every character is at most U+00FF; each byte is its character's code. |
| UseWaitlist.Btoa | src/hooks/useWaitlist.ts:44 | `btoa` throws exactly on a character above U+00FF, and otherwise is the Base 64 encoding of the Latin-1 bytes. |
| UseWaitlist.Scrub | src/hooks/useWaitlist.ts:44 | The replacement keeps the length and maps each character on its own: `/`, `+` and `=` become `x`. |
| UseWaitlist.ReferralCode | src/hooks/useWaitlist.ts:44 | A code exists exactly when `btoa` does not throw. It is the first `min(8, n)` characters of the encoding, each scrubbed. |
| UseWaitlist.ReferralCodeShape | src/hooks/useWaitlist.ts:44 | A code exists exactly for Latin-1 emails. It has at most 8 characters, all ASCII letters or digits, so never `/`, `+` or `=`. |
| UseWaitlist.ReferralCodeLength | src/hooks/useWaitlist.ts:44 | Every Latin-1 email of four or more characters gets exactly 8 characters. |
| UseWaitlist.ReferralCodeSharedPrefix | src/hooks/useWaitlist.ts:44 | Emails that share their first six characters share their code. |
| UseWaitlist.ReferralCodeCollision | src/hooks/useWaitlist.ts:43-44 | Two different emails receive the same code, so the code is not unique. |
| UseWaitlist.OrNull | src/hooks/useWaitlist.ts:52-54 | Or-ing an argument with null: absent and empty arguments both become null, and others are kept. |
| UseWaitlist.NewEntry | src/hooks/useWaitlist.ts:49-57 | The inserted row has the email and the derived code. Name, wallet and referrer code are null when absent or empty; no socials, flags false. |
| UseWaitlist.ReferrerOf | src/hooks/useWaitlist.ts:78-84 | `.single()` on the code finds a referrer exactly when one row owns the code, and that row is it. |
| UseWaitlist.ReferralRows | src/hooks/useWaitlist.ts:75-98 | At most one referral row is added, only when a code was given and both calls met no fault. It pairs the code's owner with the new email. |
| UseWaitlist.JoinWaitlist | src/hooks/useWaitlist.ts:28-117 | A known email, a `btoa` failure, a failed insert and a duplicate key (`23505`) each return null and write nothing. Otherwise the new row is inserted and returned, and the referral rows are appended; a referral failure does not change the result. |
| UseWaitlist.RecordReferral | src/hooks/useWaitlist.ts:75-98 | The referral step changes no entry and appends exactly the rows `ReferralRows` describes. |
| UseWaitlist.SelfReferral | src/hooks/useWaitlist.ts:75-98 | A sign-up whose referrer code equals its own new code, which no other row owns, records itself as its own referrer. |
| UseWaitlist.OwnersAfterInsert | src/hooks/useWaitlist.ts:78-82 | Inserting a row adds its email to the owners of its code. |
| UseWaitlist.UpdateWaitlistEntry | src/hooks/useWaitlist.ts:125-146 | Returns the updated row exactly when the guarded update succeeds, and null otherwise, with nothing changed. |
| UseWaitlist.VerifyTwitterFollow | src/hooks/useWaitlist.ts:222-257 | True exactly when the guarded update succeeds. The update sets the username, `twitter_followed = true` and `updated_at`; a failure changes nothing. |
| UseWaitlist.VerifyDiscordJoin | src/hooks/useWaitlist.ts:259-294 | True exactly when the guarded update succeeds. The update sets the username, `discord_joined = true` and `updated_at`; a failure changes nothing. |
| UseWaitlist.AttemptsUsed | src/components/TwitterVerificationDialog.tsx:89-98 | The retry loop makes between one and three calls. All but the last fail, and the last succeeds unless it is the third. |
| UseWaitlist.AttemptsFrom | src/components/TwitterVerificationDialog.tsx:92-98 | From attempt `k` on, the loop stops at the first success or after the third attempt. |
| UseWaitlist.AttemptsUsedUnique | src/components/TwitterVerificationDialog.tsx:92-98 | Any count that stops at the first success, or at three, is `AttemptsUsed`. |
| UseWaitlist.AttemptsForMissingRow | src/utils/supabaseUtils.ts:60-66 | A stored email with no row behind it makes the loop run all three attempts. |
| UseWaitlist.AttemptsWithoutFaults | src/components/TwitterVerificationDialog.tsx:92-95 | With the row present and no faults, the first attempt succeeds. |
| UseWaitlist.GetWaitlistEntry | src/hooks/useWaitlist.ts:148-184 | Returns the row exactly when the probe and the lookup meet no fault and the row exists; otherwise null. |
| UseWaitlist.GetTotalWaitlistCount | src/hooks/useWaitlist.ts:208-220 | The exact row count, or 0 when the query fails. |
| UseWaitlist.CountOrZero | src/hooks/useWaitlist.ts:198 | The text `parseInt` reads is never empty: a number prints as itself, a non-empty string is kept, and `0`, `''` or a missing count become `'0'`. |
| UseWaitlist.CoerceCount | src/hooks/useWaitlist.ts:198 | Parsing the count, or `'0'` when it is falsy, keeps every integer count and turns a missing or empty count into 0. |
| UseWaitlist.FormatRow | src/hooks/useWaitlist.ts:193-199 | The spread keeps the email, name, wallet and creation time of the row and replaces the count by its coerced value. |
| UseWaitlist.GetLeaderboard | src/hooks/useWaitlist.ts:186-206 | The procedure's rows in its order, each keeping its email, name, wallet and creation time, with its count coerced; an empty list when the call fails. |
| UseWaitlist.FormatCount | src/hooks/useWaitlist.ts:300 | Parsing the count, with 0 for NaN, keeps an integer count and turns a missing one into 0. |
| UseWaitlist.FormatLeaderboardData | src/hooks/useWaitlist.ts:297-303 | Every row stays in place with its email, name, wallet and creation time, and its count becomes an integer, never NaN. |
| TwitterDialog.ValidateTwitterUsername | src/components/TwitterVerificationDialog.tsx:27-31 | A username is accepted exactly when it has 1 to 15 characters, all letters, digits or `_`. |
| TwitterDialog.StripAt | src/components/TwitterVerificationDialog.tsx:46 | One leading `@` is removed if present, and nothing else. |
| TwitterDialog.AcceptedUsernameIsStable | src/components/TwitterVerificationDialog.tsx:46-68 | A username that submit accepted has no white space and no `@`, so formatting the stored text again leaves it unchanged. |
| TwitterDialog.FollowWithRetry | src/components/TwitterVerificationDialog.tsx:89-98 | The loop makes `AttemptsUsed` calls and stops at the first success. The table ends patched exactly when the last call succeeded, and is unchanged otherwise. |
| TwitterDialog.Dialog.constructor | src/components/TwitterVerificationDialog.tsx:20-33 | Empty input, no error, stage `initial`. |
| TwitterDialog.Dialog.SetInput | src/components/TwitterVerificationDialog.tsx:170 | The input holds the typed text. |
| TwitterDialog.Dialog.HandleSubmit | src/components/TwitterVerificationDialog.tsx:35-76 | Blank or invalid input sets its message and leaves the stage and the input. Valid input moves to `following` and stores the trimmed, `@`-stripped name. |
| TwitterDialog.Dialog.HandleConfirmFollow | src/components/TwitterVerificationDialog.tsx:79-139 | Without a stored email nothing changes and `onSuccess` is not called. Otherwise the retry loop runs, and then, whatever it returned, the stored record gets the username and the follow flag, the stage becomes `completed`, and `onSuccess` gets the username. |
| DiscordDialog.DigitRunAll | src/components/DiscordVerificationDialog.tsx:31 | The scan accepts exactly strings of ASCII digits. |
| DiscordDialog.DiscriminatorDigits | src/components/DiscordVerificationDialog.tsx:31 | The four characters after a discriminator's `#` are digits. |
| DiscordDialog.ValidateDiscordUsername | src/components/DiscordVerificationDialog.tsx:27-33 | The scan sets an optional `#dddd` suffix aside and checks 2 to 32 word characters; an accepted name has 2 to 37 characters. `DiscordUsernameIff` gives its full reading. |
| DiscordDialog.DiscordValidMatches | src/components/DiscordVerificationDialog.tsx:27-33 | Every username the scan accepts matches the regex. |
| DiscordDialog.DiscordMatchedValid | src/components/DiscordVerificationDialog.tsx:27-33 | Every username the regex matches is accepted by the scan. |
| DiscordDialog.DiscordUsernameIff | src/components/DiscordVerificationDialog.tsx:27-33 | Accepted exactly when the name is 2 to 32 word characters, optionally followed by `#` and four digits. |
| DiscordDialog.JoinWithRetry | src/components/DiscordVerificationDialog.tsx:87-96 | The loop makes `AttemptsUsed` calls and stops at the first success. The table ends patched exactly when the last call succeeded. |
| DiscordDialog.Dialog.constructor | src/components/DiscordVerificationDialog.tsx:20-35 | Empty input, no error, stage `initial`. |
| DiscordDialog.Dialog.SetInput | src/components/DiscordVerificationDialog.tsx:170 | The input holds the typed text. |
| DiscordDialog.Dialog.HandleSubmit | src/components/DiscordVerificationDialog.tsx:37-74 | Blank input and an invalid trimmed name set their messages and keep the stage. A valid trimmed name, with no `@` stripping, moves to `joining`. |
| DiscordDialog.Dialog.SubmitTrimmed | src/components/DiscordVerificationDialog.tsx:42-67 | The same chain, stated on the trimmed text. |
| DiscordDialog.Dialog.HandleConfirmJoin | src/components/DiscordVerificationDialog.tsx:77-137 | Without a stored email nothing changes. Otherwise the retry loop runs with the trimmed name, then the record gets the trimmed name and the join flag, the stage becomes `completed`, and `onSuccess` gets the trimmed name. |
| DiscordDialog.Dialog.ConfirmJoinAs | src/components/DiscordVerificationDialog.tsx:81-125 | The confirm step once the username is trimmed. |
| WalletDialog.PaddedAddressRejected | src/components/WalletVerificationDialog.tsx:34-43 | The format check runs on the raw input: a valid address with white space around it is not blank and fails the format check. |
| WalletDialog.Dialog.constructor | src/components/WalletVerificationDialog.tsx:21-23 | Empty input and no error. |
| WalletDialog.Dialog.SetInput | src/components/WalletVerificationDialog.tsx:107 | The input holds the typed text. |
| WalletDialog.Dialog.HandleSubmit | src/components/WalletVerificationDialog.tsx:29-77 | Blank and malformed input set their messages and change nothing. A valid address is written to the stored user's row when a stored email exists and the update succeeds. `onSuccess` gets the address whatever the update did. |
| EmailModal.ValidEmailChars | src/components/EmailModal.tsx:35 | In an accepted address every character but the first `@` is neither white space nor `@`. |
| EmailModal.IsValidEmail | src/components/EmailModal.tsx:35 | The scan of the address pattern; an accepted address has a non-empty part before its first `@` and at least three characters after it. `EmailPatternIff` gives its full reading. |
| EmailModal.ValidEmailMatches | src/components/EmailModal.tsx:35 | Every address the scan accepts matches the regex. |
| EmailModal.MatchedEmailValid | src/components/EmailModal.tsx:35 | Every address the regex matches is accepted by the scan. |
| EmailModal.EmailPatternIff | src/components/EmailModal.tsx:35 | Accepted exactly when there is one `@` with text before it, a `.` after it with characters on both sides, and no white space. |
| EmailModal.ValidEmailShape | src/components/EmailModal.tsx:35-36 | An accepted address has no white space, is its own trim, and holds exactly one `@`. |
| EmailModal.ValidEmailNoSpace | src/components/EmailModal.tsx:35 | An accepted address has no white space. |
| EmailModal.OptionalName | src/components/EmailModal.tsx:46 | The name argument (the trimmed name, or `undefined` when that is empty) is absent exactly for a blank name, and is the non-empty trim otherwise. |
| EmailModal.Modal.constructor | src/components/EmailModal.tsx:18-20 | Empty inputs and no error. |
| EmailModal.Modal.SetInputs | src/components/EmailModal.tsx:88-102 | The inputs hold the typed text. |
| EmailModal.Modal.HandleSubmit | src/components/EmailModal.tsx:24-70 | A blank or malformed trimmed email sets its message and calls nothing. Otherwise `joinWaitlist` gets the trimmed email, the trimmed name or nothing, and the code. On an entry, `onSuccess` gets the email and the entry with the client's `created_at`, and the inputs are cleared; otherwise they are kept. |
| EmailModal.Modal.SubmitTrimmed | src/components/EmailModal.tsx:29-48 | The same chain, stated on the trimmed email and the name argument. |
| EmailModal.Modal.JoinAs | src/components/EmailModal.tsx:44-65 | The call and its success branch: the result mirrors `joinWaitlist`, and the inputs are cleared only on success. |
| SignIn.CaughtMessage | src/pages/SignIn.tsx:84-88 | The invalid-credentials text exactly for an `Error('Invalid credentials')`, and the generic text for everything else. |
| SignIn.SessionOf | src/pages/SignIn.tsx:63-69 | The stored session is the row with a fresh `updated_at` and every other column unchanged. |
| SignIn.PasswordIgnored | src/pages/SignIn.tsx:39-61 | Any two non-empty passwords give the same outcome: the password is never compared. |
| SignIn.SignInSucceedsIff | src/pages/SignIn.tsx:51-61 | Sign-in succeeds exactly when the trimmed email is well formed, the password is non-empty, the lookup meets no fault and the row exists. The found row is then returned. |
| SignIn.BlankEmailGetsFormatMessage | src/pages/SignIn.tsx:19-37 | The emptiness check is on the raw input, so white space alone gets the format message. |
| SignIn.SignInOutcome | src/pages/SignIn.tsx:19-89 | The handler's decision: a success returns the row stored under the trimmed email, with a non-empty password, and every rejection carries one of the page's five messages. |
| SignIn.CheckedOutcome | src/pages/SignIn.tsx:28-89 | After the emptiness check: a success returns the row under the key, and every rejection carries one of the four remaining messages. |
| SignIn.Page.constructor | src/pages/SignIn.tsx:14-15 | Empty inputs. |
| SignIn.Page.SetInputs | src/pages/SignIn.tsx:115-125 | The inputs hold the typed text. |
| SignIn.Page.HandleSignIn | src/pages/SignIn.tsx:18-93 | The outcome is what the ordered checks and the email-only lookup decide. On success the session becomes the found row with a fresh `updated_at`; otherwise it is kept. |
| SignIn.Page.SignInAs | src/pages/SignIn.tsx:28-80 | The same, once the raw email is known non-empty and trimmed. |
| WaitlistSignup.AllActionsCompleted | src/pages/WaitlistSignup.tsx:190-193 | All actions are completed exactly when each of the four ids is in the list. |
| WaitlistSignup.CompletionByMembers | src/pages/WaitlistSignup.tsx:190-193 | Only which ids occur counts: two lists with the same members are both complete or both not, whatever their order and repetitions. |
| WaitlistSignup.Step | src/pages/WaitlistSignup.tsx:48-53 | One restore block appends its id exactly when the record shows the action and the list lacked it. |
| WaitlistSignup.RestoredActions | src/pages/WaitlistSignup.tsx:48-77 | Restoring keeps the old list as a prefix and adds at most the four ids. |
| WaitlistSignup.RestoredActionsMembers | src/pages/WaitlistSignup.tsx:43-78 | After restoring, an action is listed exactly when it was before or the record shows it. |
| WaitlistSignup.AppendFreshDistinct | src/pages/WaitlistSignup.tsx:50-52 | Appending one missing id keeps the list free of repetitions. |
| WaitlistSignup.RestoredActionsDistinct | src/pages/WaitlistSignup.tsx:48-77 | Restoring into a list without repetitions adds none. |
| WaitlistSignup.RestoreCompletesAll | src/pages/WaitlistSignup.tsx:48-77 | On a fresh page, restoring completes all four exactly when the record has an email, a wallet, a Twitter name with the follow flag and a Discord name with the join flag. |
| WaitlistSignup.Fallback | src/pages/WaitlistSignup.tsx:119-123 | A chain of two values and a default takes the first truthy operand, the default when neither value is truthy. |
| WaitlistSignup.MergedRecord | src/pages/WaitlistSignup.tsx:112-127 | The merged record sets email, code, name and `updated_at` from the sign-up, and keeps every key it does not list. |
| WaitlistSignup.MergedRecordSocials | src/pages/WaitlistSignup.tsx:119-124 | No completed social step is lost. Each field is set exactly when page state or the stored record has it, page state wins, and the flags are an OR. |
| WaitlistSignup.Page.constructor | src/pages/WaitlistSignup.tsx:20-29 | Nothing completed, all dialogs closed, the placeholder count 1247. |
| WaitlistSignup.Page.Restore | src/pages/WaitlistSignup.tsx:34-79 | The count becomes the database's count, or 0 on failure. A stored record restores the user fields and the completed actions it shows. |
| WaitlistSignup.Page.RestoreFrom | src/pages/WaitlistSignup.tsx:43-78 | The list becomes `RestoredActions`, and each user field is taken from the record when the record shows its action. |
| WaitlistSignup.Page.MarkRestored | src/pages/WaitlistSignup.tsx:50-52 | The id is appended only if the list the effect saw lacked it. |
| WaitlistSignup.Page.LoadWaitlistCount | src/pages/WaitlistSignup.tsx:36-39 | The placeholder is replaced by the row count, or 0 on failure. |
| WaitlistSignup.Page.HandleActionComplete | src/pages/WaitlistSignup.tsx:81-101 | Opens exactly the dialog the id names; an unknown id opens none. |
| WaitlistSignup.Page.HandleEmailSuccess | src/pages/WaitlistSignup.tsx:103-128 | Appends `email` and writes the merged record, starting from an empty record when none is stored. |
| WaitlistSignup.Page.HandleWalletSuccess | src/pages/WaitlistSignup.tsx:130-147 | Appends `address`. A stored record gets the address and `updated_at`; with none, nothing is stored. |
| WaitlistSignup.Page.HandleTwitterSuccess | src/pages/WaitlistSignup.tsx:149-167 | Appends `twitter`. A stored record gets the name, the flag and `updated_at`. |
| WaitlistSignup.Page.HandleDiscordSuccess | src/pages/WaitlistSignup.tsx:169-187 | Appends `discord`. A stored record gets the name, the flag and `updated_at`. |
| WaitlistSignup.Page.EnterClicked | src/pages/WaitlistSignup.tsx:255-260 | Navigation happens exactly when all four actions are in the list. |
| ReferralDashboard.ReferralLink | src/pages/ReferralDashboard.tsx:19-21 | Without a truthy code the link is the fixed fallback URL. |
| ReferralDashboard.ReferralLinkCarriesCode | src/pages/ReferralDashboard.tsx:19-21 | A link built from a derived code starts with the origin, and its text after `=` is exactly the code. |
| ReferralDashboard.TopTen | src/pages/ReferralDashboard.tsx:35 | The shown leaderboard is the first ten rows, or all rows when fewer, in order. |
| ReferralDashboard.FindIndex | src/pages/ReferralDashboard.tsx:39-46 | The index of the first row with the user's email, no earlier row matching; none exactly when no row matches. |
| ReferralDashboard.RankString | src/pages/ReferralDashboard.tsx:47 | The rank text is `#` followed by digits only, padded to at least three and never cut. |
| ReferralDashboard.RankAfter | src/pages/ReferralDashboard.tsx:45-47 | Without a matching row the rank shown before stays; with one the shown text is a formatted rank. |
| ReferralDashboard.RankStringParses | src/pages/ReferralDashboard.tsx:47 | The digits of the rank text read back as the rank. |
| ReferralDashboard.ShownRankIsPosition | src/pages/ReferralDashboard.tsx:39-47 | When the email is listed, the shown rank reads back as one more than the index of its first row. |
| ReferralDashboard.DefaultRankIsFirst | src/pages/ReferralDashboard.tsx:14 | The default `#001` is what rank 1 formats to. |
| ReferralDashboard.ShortRank | src/pages/ReferralDashboard.tsx:47 | Ranks up to 999 have at most three digits, so their text has four characters. |
| ReferralDashboard.MaskEmail | src/pages/ReferralDashboard.tsx:267 | The mask starts with the email's first three characters (fewer for a shorter email) followed by `****`. |
| ReferralDashboard.MaskWithoutAt | src/pages/ReferralDashboard.tsx:267 | Without an `@` the missing domain renders as nothing: the mask is the first three characters and `****`. |
| ReferralDashboard.MaskOfAbc | src/pages/ReferralDashboard.tsx:267 | The email `abc` is shown as `abc****`. |
| ReferralDashboard.MaskOfValidEmail | src/pages/ReferralDashboard.tsx:267 | For a well-formed address, the mask is the first three characters, `****` and the whole domain. |
| ReferralDashboard.NoAtInEmailChars | src/pages/ReferralDashboard.tsx:267 | A domain made of email characters holds no further `@`. |
| ReferralDashboard.TruncateWallet | src/pages/ReferralDashboard.tsx:130 | The shown wallet is its first six characters, `...` and whatever follows the 38th, for every length. |
| ReferralDashboard.TruncateValidWallet | src/pages/ReferralDashboard.tsx:130 | A valid address shows as `0x`, four digits, `...` and its last four digits: 13 characters. |
| ReferralDashboard.Dashboard.constructor | src/pages/ReferralDashboard.tsx:11-14 | No user, no rows, count 0, rank `#001`. |
| ReferralDashboard.Dashboard.LoadUser | src/pages/ReferralDashboard.tsx:25-29 | A stored record becomes `userInfo`; otherwise `userInfo` is kept. |
| ReferralDashboard.Dashboard.LoadLeaderboard | src/pages/ReferralDashboard.tsx:32-64 | Without a truthy email nothing changes. Otherwise the top ten are shown, and when the email is listed the count and the rank come from its first row; the rank otherwise stays. |
| ReferralDashboard.Dashboard.ShowLeaderboard | src/pages/ReferralDashboard.tsx:33-47 | The same, once the formatted rows are in hand. |

## Left out

- User-interface side effects are not modelled:
  - toasts, `window.open`, the clipboard, `navigate` and `console` logging;
  - dynamic `import()`;
  - the loading and verifying flags (`loading`, `isVerifying`, `isValidating`);
  - dialog closing (`onClose`).
- React scheduling is not modelled: each handler runs to completion on the state it reads, and `useEffect` dependencies are not tracked.
- The joined date and every other date formatting (`toLocaleDateString`, `joined_at`, `joined_date`) are not modelled. Timestamps are an opaque `now` string argument.
- The one-second pause between verification attempts is not modelled; it does not change what the loop computes.
- Concurrency is not modelled: the race between the existence check and the insert or update, and local storage shared across tabs. The duplicate-key case (`23505`) is modelled as an insert meeting an existing email.
- The leaderboard procedure `get_referral_leaderboard` is not modelled. Its rows are an argument, and no order is assumed.
- JSON parsing errors of a corrupt `waitlist_user`, and the catch branches only they reach, are not modelled. The record is a map from column keys to strings, booleans or null.
- Keys other than the table's columns, and stored values of other JSON types, are not modelled.
- Column defaults are assumed rather than read from the database: `id`, the flags and `created_at` are what `NewEntry` states, with `id` passed in as an argument.
- Character encoding: strings are sequences of Unicode scalar values, not UTF-16 code units. `btoa`'s Latin-1 check is the same under both.
- Numbers are exact integers: `parseInt` and counts ignore floating point and the `Number` range.
- `UseWaitlist.UpdateWaitlistEntry`: a call that throws after the update reached the database is assumed to have changed nothing.
- `ReferralDashboard.Dashboard.LoadLeaderboard`: the source's closure reads `userInfo` as of the render that scheduled it. The model reads the current field, which matches once the record has been loaded.
- Display fallbacks are not modelled: `'NEFTIT BELIEVER'`, `'Anonymous'` and the leaderboard row layout.
- The documentation states behaviours that the code does not implement:
  - a client-side email format check inside `joinWaitlist`;
  - a minimum password length;
  - unique referral codes;
  - `getWaitlistEntry` being exposed by the hook.

  The model follows the code. `UseWaitlist.ReferralCodeCollision` exhibits two emails that share a code.
