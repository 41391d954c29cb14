# UrlReservation — a verified model

UrlReservation is a small .NET wrapper around the URL-ACL reservation table of HTTP.sys (the
Windows kernel HTTP driver), plus a WinForms tool (UrlAclModifier) that lists, adds and deletes
reservations. A reservation names a URL prefix and the users, by security identifier (SID), who
may listen on it.

This project models the sequential logic of that code in Dafny:

- `UrlReservations` (`url_reservation.dfy`): the `UrlReservation` value (URL and ordered SID
  list), appending and clearing SIDs, the ACL built from the SIDs (one allow / GENERIC_EXECUTE
  entry per SID), the `GetAll` enumeration over query tokens 0, 1, 2, …, and how `Create` and
  `Delete` turn native status codes into success or an exception. It also records which native
  calls are made, so that every successful initialise is shown to be followed by one terminate.
- `MainForm` (`main_form.dfy`): `getNameOfUsers`, which formats a list of account names.
- `AddReservationForm` (`add_reservation_form.dfy`): the add-reservation dialog's parallel
  `sids` / `users` lists, its duplicate check, and what its Create button submits.
- `Results`, `Security` and `HttpApi`: wrappers, the SID and ACE vocabulary, and the native API.

The native API is not called. `HttpInitialize`, `HttpQueryServiceConfiguration`,
`HttpSetServiceConfiguration`, `HttpDeleteServiceConfiguration` and `HttpTerminate` are fields of
an `Api` value that supply the status codes and replies. Account-name and SID translation are
partial functions (`string -> Option<Sid>`, `Sid -> Option<string>`). Status codes are an
abstract datatype: `NoError`, `AlreadyExists`, `NoMoreItems`, and `Other(n)` for any other code.
Their numeric values do not matter here; only their distinctness does.

`GetAll`'s query token is an unsigned 32-bit integer. The native loop therefore ends exactly when
some token below 2^32 returns a code other than `NoError`. Past that, the token wraps around and
the loop never ends. The model's precondition is that such a token exists, and it applies only
when initialisation succeeded.

## Model

| member | source | states |
|---|---|---|
| `UrlReservations.New` | HttpApiWrapper/UrlReservation.cs:53-56 | A new reservation has the given URL and no SIDs. |
| `UrlReservations.FromSids` | HttpApiWrapper/UrlReservation.cs:63-67 | The two-argument constructor holds the given URL and a copy of the SID list, in the same order. |
| `UrlReservations.AddSecurityIdentifier` | HttpApiWrapper/UrlReservation.cs:118-121 | Appends the SID at the end with no duplicate check. The length grows by one, earlier entries and the URL are unchanged, and the multiset gains exactly this SID. |
| `UrlReservations.ClearUsers` | HttpApiWrapper/UrlReservation.cs:126-129 | Leaves the SID list empty and the URL unchanged. |
| `UrlReservations.AddAll` | UrlAclModifier/frmAddReservation.cs:60-64 | Adding SIDs one at a time in a loop appends the whole list, in order, and keeps the URL. |
| `UrlReservations.ConstructorsAgree` | HttpApiWrapper/UrlReservation.cs:53-67 | Building empty and adding each SID gives the same reservation as the two-argument constructor. So does clearing a reservation and refilling it. |
| `Security.Utf16LengthBounds` | HttpApiWrapper/UrlReservation.cs:109 | The .NET length of a name, in UTF-16 code units, is between its character count and twice that. It is zero only for the empty name. |
| `Security.Utf16LengthBmp` | HttpApiWrapper/UrlReservation.cs:109 | A name made only of Basic Multilingual Plane characters has one code unit per character. |
| `Security.Utf16LengthAstral` | HttpApiWrapper/UrlReservation.cs:109 | A name made only of characters outside that plane has two code units per character. |
| `Security.AstralNameRejected` | HttpApiWrapper/UrlReservation.cs:109 | 300 copies of U+1F600 are within 512 characters but are 600 code units, so the account constructor rejects them. |
| `Security.AccountSid` | HttpApiWrapper/UrlReservation.cs:109-110 | Making an account object and translating it gives a SID exactly when the constructor accepts the name and the name has a SID. The constructor accepts a non-empty name of at most 512 UTF-16 code units. That SID is the lookup's. A name over the limit never gets a SID. |
| `UrlReservations.AddUser` | HttpApiWrapper/UrlReservation.cs:107-112 | Fails exactly when the name is empty, longer than 512 UTF-16 code units, or has no SID. An empty or over-long name fails with the account constructor's argument error. Any other failure is "account not mapped". On success it appends that SID and keeps the URL. |
| `UrlReservations.Users` | HttpApiWrapper/UrlReservation.cs:79-90 | Succeeds exactly when every SID has an account name. It then lists those names in SID order. Otherwise it raises for the first SID that has no name. |
| `UrlReservations.Dacl` | HttpApiWrapper/UrlReservation.cs:336-346 | One entry per SID, in list order, each an Allow entry for that SID with mask GENERIC_EXECUTE = 536870912. |
| `UrlReservations.DaclSidsRoundTrip` | HttpApiWrapper/UrlReservation.cs:336-346 | The SIDs of the requested entries are the reservation's SID list, in order and with duplicates. This covers the requested entries only, not the ACL the .NET class keeps nor the SDDL string. |
| `UrlReservations.DaclOfAdd` | HttpApiWrapper/UrlReservation.cs:336-346 | After adding a SID, the ACL is the old ACL plus one grant for that SID at the end. |
| `UrlReservations.QueryAll` | HttpApiWrapper/UrlReservation.cs:166-213 | Queries tokens 0, 1, … consecutively up to the first reply that is not NoError, which lies below 2^32. It keeps, in token order, the reservation of every NoError reply and of no other. |
| `UrlReservations.GetAll` | HttpApiWrapper/UrlReservation.cs:155-232 | If initialise fails, raises with its code and makes no query. Otherwise it queries tokens 0, 1, … consecutively up to the first non-NoError reply, then terminates. It raises with the stopping code unless that code is "no more items". It raises with terminate's code if terminate failed, even after a complete enumeration. Otherwise it returns, in token order, the entries of the NoError replies. Its call trace opens one session and, when initialise succeeded, closes it once. |
| `UrlReservations.FirstStopUnique` | HttpApiWrapper/UrlReservation.cs:172-213 | The stopping token is unique, so the enumeration's result is determined by the replies. |
| `UrlReservations.EnumeratedSuccess` | HttpApiWrapper/UrlReservation.cs:202-231 | The enumeration succeeds exactly when it stopped on "no more items" and terminate succeeded. Its entries then number the stopping token and each comes from a NoError reply. |
| `UrlReservations.GetAllBalanced` | HttpApiWrapper/UrlReservation.cs:161-223 | The enumeration's call trace opens one session and closes it once, after the queries, whenever initialise succeeded. |
| `UrlReservations.CreateResult` | HttpApiWrapper/UrlReservation.cs:270-277 | "Already exists" maps to an argument error with its message. Any other non-NoError code maps to a native error with that code. NoError maps to success. |
| `UrlReservations.DeleteResult` | HttpApiWrapper/UrlReservation.cs:313-316 | Any non-NoError code maps to a native error with that code. NoError maps to success. |
| `UrlReservations.CreateDeleteAgree` | HttpApiWrapper/UrlReservation.cs:270-316 | Create and delete read codes alike, except "already exists", which is an argument error only for create. |
| `UrlReservations.Create` | HttpApiWrapper/UrlReservation.cs:236-278 | Sends the reservation's URL and ACL after a successful initialise, then terminates and ignores terminate's code. The outcome is read from initialise's code if that failed, else from the set call's code. It succeeds exactly when both return NoError. |
| `UrlReservations.Delete` | HttpApiWrapper/UrlReservation.cs:282-317 | Same shape as `Create` but with the delete call, and any non-NoError code raises. |
| `UrlReservations.SessionsBalanced` | HttpApiWrapper/UrlReservation.cs:242-317 | The call traces of create and delete open one session and, when initialise succeeded, close it once at the end. |
| `MainForm.NameOfUsers` | UrlAclModifier/frmMain.cs:90-109 | Total on every list length. An empty list gives "". A non-empty list's phrase ends with the last name, and from two names on that name follows " and ". |
| `MainForm.NameOfUsersShortLists` | UrlAclModifier/frmMain.cs:94-99 | Zero names give "", one name gives itself, and two give `u0 + " and " + u1`. |
| `MainForm.CommaListAppend` | UrlAclModifier/frmMain.cs:102-105 | The loop's text for a concatenated list is the concatenation of the texts for the parts. |
| `MainForm.CommaListAt` | UrlAclModifier/frmMain.cs:102-105 | The loop writes name i followed by ", " right where the text of the names before it ends. |
| `MainForm.NameOfUsersLongLists` | UrlAclModifier/frmMain.cs:100-107 | For n ≥ 3 and i < n-2, the phrase holds `u[i] + ", "` at offset Σ_{j<i} (len(u[j]) + 2), right after the names before it. |
| `MainForm.NameOfUsersIgnoresSecondToLast` | UrlAclModifier/frmMain.cs:102-106 | For n ≥ 3, replacing `u[n-2]` leaves the phrase unchanged. |
| `MainForm.CommaListLength` | UrlAclModifier/frmMain.cs:102-105 | The loop's text is Σ(len(u[i]) + 2) long. |
| `MainForm.NameOfUsersLength` | UrlAclModifier/frmMain.cs:101-106 | For n ≥ 3 the phrase is Σ_{i<n-2}(len(u[i]) + 2) + 5 + len(u[n-1]) long. |
| `MainForm.NameOfUsersDropsName` | UrlAclModifier/frmMain.cs:100-107 | `["a","b","c"]` gives `"a,  and c"`, which does not contain "b". |
| `MainForm.NameOfUsersIntended` | UrlAclModifier/frmMain.cs:98-107 | The corrected phrase is the same as the code's for up to two names. |
| `MainForm.JoinMentions` | UrlAclModifier/frmMain.cs:98-107 | Every name occurs in the ", "-joined list. |
| `MainForm.NameOfUsersIntendedMentionsAll` | UrlAclModifier/frmMain.cs:98-107 | Every name, including the second-to-last, occurs in the corrected phrase. |
| `MainForm.JoinLength` | UrlAclModifier/frmMain.cs:98-107 | The ", "-joined list is the names' total length plus 2 per separator. |
| `MainForm.NameOfUsersIntendedLength` | UrlAclModifier/frmMain.cs:98-107 | For n ≥ 2 the corrected phrase is Σlen(u[i]) + 2(n-2) + 5 long, so every name counts and no space is doubled. |
| `AddReservationForm.AddUser` | UrlAclModifier/frmAddReservation.cs:83-113 | A name that is empty, over-long or without a SID leaves both lists unchanged and shows "Invalid user name.". A SID already in the list leaves both lists unchanged and shows "User is already in the list.". Otherwise the SID is appended. Its account name is appended when the reverse lookup succeeds. When that lookup raises, the error text stays as it was. Duplicates never enter, and the dialog result is untouched. |
| `UrlReservations.AddUserAgreesWithLookup` | HttpApiWrapper/UrlReservation.cs:107-112 | The wrapper's add succeeds exactly when the dialog's lookup (`AccountSid`) yields a SID, and then appends that SID. Adding the same name twice lists its SID twice, because nothing checks for duplicates. |
| `AddReservationForm.AddUserKeepsValid` | UrlAclModifier/frmAddReservation.cs:99-106 | No duplicate SIDs after any add. The lists stay parallel, each name being its SID's name, unless the reverse lookup raised. |
| `AddReservationForm.AddUserDesyncs` | UrlAclModifier/frmAddReservation.cs:105-106 | If the reverse lookup fails, one SID is added and no name. |
| `AddReservationForm.AddUserChecked` | UrlAclModifier/frmAddReservation.cs:83-113 | The corrected add changes the lists only on success, appending one SID and its name together. |
| `AddReservationForm.AddUserCheckedKeepsValid` | UrlAclModifier/frmAddReservation.cs:99-106 | The corrected add keeps both invariants whatever the lookups return. It equals the code's add whenever the reverse lookup succeeds. |
| `AddReservationForm.AddUserNamedKeepsValid` | UrlAclModifier/frmAddReservation.cs:99-106 | An add as written keeps a valid dialog valid whenever every SID the dialog then holds has a name. |
| `AddReservationForm.AddUsersAsWritten` | UrlAclModifier/frmAddReservation.cs:83-113 | With the Add button as written, any sequence of adds keeps the SIDs free of duplicates and never leaves more names than SIDs. Both lists only grow at the end. The lists stay paired when every SID finally in the list has a name, that is, when every reverse lookup made succeeded. |
| `AddReservationForm.OpenedDialogsAsWritten` | UrlAclModifier/frmAddReservation.cs:47-48 | With the Add button as written, every dialog reached from a freshly opened one has no duplicate SIDs and len(users) <= len(sids). It has one name per SID when every SID it holds has a name. |
| `AddReservationForm.AddUsers` | UrlAclModifier/frmAddReservation.cs:83-113 | With the corrected add (`AddUserChecked`), any sequence of adds keeps a valid dialog valid and only extends the SID list. |
| `AddReservationForm.OpenedDialogsStayValid` | UrlAclModifier/frmAddReservation.cs:47-48 | With the corrected add (`AddUserChecked`), every dialog reached from a freshly opened one has no duplicate SIDs and len(sids) == len(users). |
| `AddReservationForm.Create` | UrlAclModifier/frmAddReservation.cs:50-75 | With no SIDs it submits nothing, makes no native call, and changes nothing. Otherwise it submits a reservation for the URL whose SID list equals `sids` in order, and makes exactly the reservation class's create calls for it. The lists and the error text are unchanged. The dialog result becomes OK exactly when creation did not raise. |
| `AddReservationForm.CreateBalanced` | UrlAclModifier/frmAddReservation.cs:58-72 | Whenever the Create button submits, it opens one session and, when opening succeeded, closes it once at the end. |
| `AddReservationForm.CreateFailureIsReported` | UrlAclModifier/frmAddReservation.cs:58-72 | A failed create reports the reservation class's exception, whether opening the session or the set call failed. "Already exists" becomes an argument error and other codes become native errors. |

## Findings

| source | as written | input that shows it | evidently intended | confidence | as-written member | corrected member |
|---|---|---|---|---|---|---|
| UrlAclModifier/frmMain.cs:102-106 | The loop stops at `Count - 2`, then appends `" and " + last`. The second-to-last name is dropped and a space is doubled. | `["a", "b", "c"]` gives `"a,  and c"` | `"a, b and c"`, matching the two-name format | high; not executed | `MainForm.NameOfUsersDropsName` | `MainForm.NameOfUsersIntendedMentionsAll` |
| UrlAclModifier/frmAddReservation.cs:105-106 | The SID is appended before its name is looked up. If that lookup raises, the exception escapes with one more SID than names. | a name whose SID lookup succeeds but whose reverse lookup fails | look the name up first, then append both or neither | low; not executed | `AddReservationForm.AddUserDesyncs` | `AddReservationForm.AddUserCheckedKeepsValid` |

`AddReservationForm.AddUsers` builds on the corrected add.

## Left out

- P/Invoke marshalling, pinned buffers and structure layout: each query is one reply of
  code, URL prefix and SID list.
- The buffer-resizing probe in `GetAll`: it is a second query per token whose code is overwritten
  by the real query, so the model has one reply per token.
- SDDL generation and parsing by the .NET security-descriptor classes. The ACL is modelled as
  the list of access entries requested, one per SID. Any merging or canonical ordering those
  classes apply is not modelled, and no SDDL round trip is claimed.
- A parse failure of a returned security descriptor inside `GetAll`: the oracle returns the
  parsed SID list directly.
- The numeric values of the status codes and the `int` conversions of a code when raising,
  including the overflow `Convert.ToInt32` would raise for codes above 2^31 - 1.
- UrlReservations.DaclSidsRoundTrip: holds for the requested entries only. The .NET ACL merges a second grant for a SID already present into the first entry, so reading SIDs back from the real ACL of a list with duplicates gives a shorter list.
- Inheritance and propagation flags of the ACL entries: they are always none.
- `GetAll`'s behaviour when no token below 2^32 stops the enumeration: the native loop wraps its
  token and never ends, and the precondition excludes it.
- WinForms code: designer files, message boxes, the delete confirmation prompt, data binding,
  grid cell formatting, focus and text-box clearing, the Cancel button, the administrator-role
  check and the About window. These are user-interface or process calls.
- The main window's refresh and delete handlers: they only call `GetAll` and `Delete`, which are
  modelled.
