/** The add-reservation dialog: the parallel `sids` / `users` lists it keeps while the user adds
    accounts, and what its Create button hands to the reservation class.

    Account lookups are operating-system calls and appear as oracles: `toSid` for the name-to-SID
    translation, which may fail, and `toName` for the SID-to-name translation, which may fail
    too. As written, the Add button appends the SID before looking its name up; if that lookup
    raises, the exception escapes the handler with the SID added and no name added. `AddUser`
    models that code; `AddUserChecked` looks the name up first and is what `AddUsers` builds on. */
module AddReservationForm {
  import opened Results
  import opened Security
  import opened HttpApi
  import UrlReservations

  datatype DialogResult = NoResult | Ok

  /** The dialog's state: the SIDs added so far, their account names at the same positions, the
      error text shown next to the user-name box, and the dialog result. */
  datatype Dialog = Dialog(sids: seq<Sid>, users: seq<string>, errorText: string, result: DialogResult)

  /** A freshly opened dialog. */
  const Opened := Dialog([], [], "", NoResult)

  const InvalidUserNameText := "Invalid user name."
  const AlreadyInListText := "User is already in the list."

  ghost predicate NoDuplicates(sids: seq<Sid>)
  {
    forall i, j :: 0 <= i < j < |sids| ==> sids[i] != sids[j]
  }

  /** The two lists stay parallel: one name per SID, the account name of that SID. */
  ghost predicate Paired(d: Dialog, toName: Sid -> Option<string>)
  {
    |d.sids| == |d.users| && forall i :: 0 <= i < |d.sids| ==> toName(d.sids[i]) == Some(d.users[i])
  }

  ghost predicate Valid(d: Dialog, toName: Sid -> Option<string>)
  {
    NoDuplicates(d.sids) && Paired(d, toName)
  }

  datatype AddOutcome =
    | Added
    | InvalidUserName   // no account object could be made from the name, or it has no SID
    | AlreadyInList     // the SID is already in the list
    | NameLookupFailed  // the SID did not translate back to a name

  /** The Add button as written. */
  function AddUser(d: Dialog, name: string, toSid: string -> Option<Sid>, toName: Sid -> Option<string>): (r: (Dialog, AddOutcome))
    ensures r.0.result == d.result
    ensures r.1 == InvalidUserName <==> AccountSid(name, toSid).None?
    ensures r.1 == AlreadyInList <==> AccountSid(name, toSid).Some? && AccountSid(name, toSid).value in d.sids
    ensures r.1 == InvalidUserName || r.1 == AlreadyInList ==>
      r.0.sids == d.sids && r.0.users == d.users &&
      r.0.errorText == (if r.1 == InvalidUserName then InvalidUserNameText else AlreadyInListText)
    ensures r.1 == Added <==>
      AccountSid(name, toSid).Some? && AccountSid(name, toSid).value !in d.sids && toName(AccountSid(name, toSid).value).Some?
    ensures r.1 == Added ==>
      r.0.sids == d.sids + [AccountSid(name, toSid).value] &&
      r.0.users == d.users + [toName(AccountSid(name, toSid).value).value] &&
      r.0.errorText == ""
    ensures r.1 == NameLookupFailed ==>
      r.0.sids == d.sids + [AccountSid(name, toSid).value] && r.0.users == d.users &&
      r.0.errorText == d.errorText
    ensures NoDuplicates(d.sids) ==> NoDuplicates(r.0.sids)
  {
    match AccountSid(name, toSid)
    case None => (d.(errorText := InvalidUserNameText), InvalidUserName)
    case Some(sid) =>
      if sid in d.sids then (d.(errorText := AlreadyInListText), AlreadyInList)
      else
        var d' := d.(sids := d.sids + [sid]);
        match toName(sid)
        case None => (d', NameLookupFailed)
        case Some(n) => (d'.(users := d.users + [n], errorText := ""), Added)
  }

  /** Every outcome of the Add button except an escaped name lookup keeps the lists parallel,
      and none lets a SID in twice. */
  lemma AddUserKeepsValid(d: Dialog, name: string, toSid: string -> Option<Sid>, toName: Sid -> Option<string>)
    requires Valid(d, toName)
    ensures NoDuplicates(AddUser(d, name, toSid, toName).0.sids)
    ensures AddUser(d, name, toSid, toName).1 != NameLookupFailed ==>
      Valid(AddUser(d, name, toSid, toName).0, toName)
  {
  }

  /** An escaped name lookup leaves one more SID than names. */
  lemma AddUserDesyncs()
    ensures
      var r := AddUser(Opened, "alice", _ => Some(Sid("S-1-5-21-1")), _ => None);
      r.1 == NameLookupFailed && |r.0.sids| == 1 && |r.0.users| == 0
  {
  }

  /** The Add button with the name lookup done before either list changes. */
  function AddUserChecked(d: Dialog, name: string, toSid: string -> Option<Sid>, toName: Sid -> Option<string>): (r: (Dialog, AddOutcome))
    ensures r.0.result == d.result
    ensures r.1 != Added ==> r.0.sids == d.sids && r.0.users == d.users
    ensures r.1 == Added <==>
      AccountSid(name, toSid).Some? && AccountSid(name, toSid).value !in d.sids && toName(AccountSid(name, toSid).value).Some?
    ensures r.1 == Added ==>
      r.0.sids == d.sids + [AccountSid(name, toSid).value] &&
      r.0.users == d.users + [toName(AccountSid(name, toSid).value).value]
  {
    match AccountSid(name, toSid)
    case None => (d.(errorText := InvalidUserNameText), InvalidUserName)
    case Some(sid) =>
      if sid in d.sids then (d.(errorText := AlreadyInListText), AlreadyInList)
      else
        match toName(sid)
        case None => (d.(errorText := InvalidUserNameText), NameLookupFailed)
        case Some(n) => (d.(sids := d.sids + [sid], users := d.users + [n], errorText := ""), Added)
  }

  /** The checked Add button keeps the dialog valid whatever the lookups return, and agrees with
      the one as written whenever the name lookup succeeds. */
  lemma AddUserCheckedKeepsValid(d: Dialog, name: string, toSid: string -> Option<Sid>, toName: Sid -> Option<string>)
    requires Valid(d, toName)
    ensures Valid(AddUserChecked(d, name, toSid, toName).0, toName)
    ensures AddUser(d, name, toSid, toName).1 != NameLookupFailed ==>
      AddUserChecked(d, name, toSid, toName) == AddUser(d, name, toSid, toName)
  {
  }

  /** An add as written keeps a valid dialog valid whenever every SID it ends up holding has a
      name: the only way to lose the pairing leaves a SID whose reverse lookup failed. */
  lemma AddUserNamedKeepsValid(d: Dialog, name: string, toSid: string -> Option<Sid>, toName: Sid -> Option<string>)
    ensures var d1 := AddUser(d, name, toSid, toName).0;
      Valid(d, toName) && (forall i :: 0 <= i < |d1.sids| ==> toName(d1.sids[i]).Some?) ==>
      Valid(d1, toName)
  {
    var r := AddUser(d, name, toSid, toName);
    if Valid(d, toName) && (forall i :: 0 <= i < |r.0.sids| ==> toName(r.0.sids[i]).Some?) {
      AddUserKeepsValid(d, name, toSid, toName);
      if |r.0.sids| > |d.sids| {
        assert toName(r.0.sids[|d.sids|]).Some?;
      }
    }
  }

  /** The user typing each of `names` in turn and pressing Add, with the Add button as written.
      The SID list only grows at the end and never holds a duplicate, and there are never more
      names than SIDs; the two lists stay paired whenever every reverse lookup succeeds. */
  function AddUsersAsWritten(d: Dialog, names: seq<string>, toSid: string -> Option<Sid>, toName: Sid -> Option<string>): (d': Dialog)
    requires NoDuplicates(d.sids) && |d.users| <= |d.sids|
    ensures NoDuplicates(d'.sids) && |d'.users| <= |d'.sids|
    ensures d'.result == d.result
    ensures |d.sids| <= |d'.sids| && d'.sids[..|d.sids|] == d.sids
    ensures |d.users| <= |d'.users| && d'.users[..|d.users|] == d.users
    ensures Valid(d, toName) && (forall i :: 0 <= i < |d'.sids| ==> toName(d'.sids[i]).Some?) ==>
      Valid(d', toName)
    decreases |names|
  {
    if names == [] then d
    else
      AddUserNamedKeepsValid(d, names[0], toSid, toName);
      var d1 := AddUser(d, names[0], toSid, toName).0;
      AddUsersAsWritten(d1, names[1..], toSid, toName)
  }

  /** Every dialog reached from a fresh one by the Add button as written has no duplicate SIDs
      and no more names than SIDs; it has exactly one name per SID when no reverse lookup fails. */
  lemma OpenedDialogsAsWritten(names: seq<string>, toSid: string -> Option<Sid>, toName: Sid -> Option<string>)
    ensures var d := AddUsersAsWritten(Opened, names, toSid, toName);
      NoDuplicates(d.sids) && |d.users| <= |d.sids| &&
      ((forall i :: 0 <= i < |d.sids| ==> toName(d.sids[i]).Some?) ==> Valid(d, toName))
  {
  }

  /** The user typing each of `names` in turn and pressing Add, with the corrected Add button. */
  function AddUsers(d: Dialog, names: seq<string>, toSid: string -> Option<Sid>, toName: Sid -> Option<string>): (d': Dialog)
    requires Valid(d, toName)
    ensures Valid(d', toName)
    ensures d'.result == d.result
    ensures |d.sids| <= |d'.sids| && d'.sids[..|d.sids|] == d.sids
    decreases |names|
  {
    if names == [] then d
    else
      AddUserCheckedKeepsValid(d, names[0], toSid, toName);
      var d1 := AddUserChecked(d, names[0], toSid, toName).0;
      AddUsers(d1, names[1..], toSid, toName)
  }

  /** Every dialog reached from a fresh one by the corrected Add button is valid. */
  lemma OpenedDialogsStayValid(names: seq<string>, toSid: string -> Option<Sid>, toName: Sid -> Option<string>)
    ensures Valid(AddUsers(Opened, names, toSid, toName), toName)
  {
  }

  datatype CreateOutcome =
    | NeedsUser                // no SID added yet: nothing submitted
    | CreateFailed(error: Failure)
    | Created

  /** The Create button: what it submits, what came of it, and the native calls made. */
  datatype CreateStep = CreateStep(
    dialog: Dialog,
    outcome: CreateOutcome,
    submitted: Option<UrlReservations.Reservation>,
    calls: seq<Call>)

  /** The Create button: refuses an empty list; otherwise builds a reservation for `url` by adding
      each SID in order and creates it, and sets the dialog result only if that did not raise. */
  function Create(d: Dialog, url: string, api: Api): (step: CreateStep)
    ensures step.dialog.sids == d.sids && step.dialog.users == d.users
    ensures step.dialog.errorText == d.errorText
    ensures step.outcome == NeedsUser <==> |d.sids| == 0
    ensures step.outcome == NeedsUser ==>
      step.submitted == None && step.calls == [] && step.dialog == d
    ensures |d.sids| > 0 ==>
      step.submitted.Some? && step.submitted.value.url == url && step.submitted.value.sids == d.sids
    ensures |d.sids| > 0 ==> step.calls == UrlReservations.Create(api, step.submitted.value).calls
    ensures step.outcome == Created <==>
      |d.sids| > 0 && api.initialize == NoError &&
      api.setConfig(url, UrlReservations.Dacl(d.sids)) == NoError
    ensures step.dialog.result == (if step.outcome == Created then Ok else d.result)
  {
    if |d.sids| == 0 then CreateStep(d, NeedsUser, None, [])
    else
      var rev := UrlReservations.AddAll(UrlReservations.New(url), d.sids);
      var run := UrlReservations.Create(api, rev);
      match run.result
      case Fail(e) => CreateStep(d, CreateFailed(e), Some(rev), run.calls)
      case Pass => CreateStep(d.(result := Ok), Created, Some(rev), run.calls)
  }

  /** A failed create reports exactly the exception the reservation class raised, whether the
      session failed to open or the set call failed: "already exists" as an argument error,
      anything else as a native error with its code. */
  lemma CreateFailureIsReported(d: Dialog, url: string, api: Api)
    requires |d.sids| > 0
    ensures var code := if api.initialize != NoError then api.initialize
                        else api.setConfig(url, UrlReservations.Dacl(d.sids));
      && (code == AlreadyExists ==>
            Create(d, url, api).outcome == CreateFailed(ArgumentError(AlreadyExistsMessage)))
      && (code != AlreadyExists && code != NoError ==>
            Create(d, url, api).outcome == CreateFailed(Win32Error(code)))
  {
  }

  /** The Create button opens one session and closes it once whenever it submits anything. */
  lemma CreateBalanced(d: Dialog, url: string, api: Api)
    requires |d.sids| > 0
    ensures UrlReservations.Balanced(Create(d, url, api).calls, api)
  {
  }
}
