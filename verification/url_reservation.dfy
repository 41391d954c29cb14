/** The `UrlReservation` class: a URL reservation value (a URL prefix and an ordered list of
    SIDs), the discretionary ACL built from it, and the three operations against HTTP.sys —
    enumerate every reservation, create one, delete one — with their mapping from native status
    codes to success or an exception. */
module UrlReservations {
  import opened Results
  import opened Security
  import opened HttpApi

  /** A reservation: the URL prefix and the users (by SID) who may use it, in insertion order.
      The SID list may hold duplicates; nothing in the class rejects them. */
  datatype Reservation = Reservation(url: string, sids: seq<Sid>)

  /* ---------------------------------------------------------------------------------------- */
  /* The reservation value                                                                    */
  /* ---------------------------------------------------------------------------------------- */

  /** `new UrlReservation(url)`. */
  function New(url: string): (r: Reservation)
    ensures r.url == url
    ensures r.sids == []
  {
    Reservation(url, [])
  }

  /** `new UrlReservation(url, sids)`: a copy of the given list, in the same order. */
  function FromSids(url: string, sids: seq<Sid>): (r: Reservation)
    ensures r.url == url
    ensures |r.sids| == |sids| && forall i :: 0 <= i < |sids| ==> r.sids[i] == sids[i]
  {
    Reservation(url, sids)
  }

  /** `AddSecurityIdentifier`: appends at the end, without any duplicate check. */
  function AddSecurityIdentifier(r: Reservation, sid: Sid): (r': Reservation)
    ensures r'.url == r.url
    ensures |r'.sids| == |r.sids| + 1
    ensures r'.sids[..|r.sids|] == r.sids && r'.sids[|r.sids|] == sid
    ensures multiset(r'.sids) == multiset(r.sids) + multiset{sid}
  {
    r.(sids := r.sids + [sid])
  }

  /** `ClearUsers`. */
  function ClearUsers(r: Reservation): (r': Reservation)
    ensures r'.url == r.url
    ensures r'.sids == []
  {
    r.(sids := [])
  }

  /** Adding each SID of `sids` in turn, as a caller's `foreach` loop over
      `AddSecurityIdentifier` does. */
  function AddAll(r: Reservation, sids: seq<Sid>): (r': Reservation)
    ensures r'.url == r.url
    ensures r'.sids == r.sids + sids
    decreases |sids|
  {
    if sids == [] then r
    else
      assert sids == [sids[0]] + sids[1..];
      AddAll(AddSecurityIdentifier(r, sids[0]), sids[1..])
  }

  /** Both constructors agree: starting empty and adding the SIDs one by one gives the same
      reservation as the two-argument constructor, and so does clearing and refilling. */
  lemma ConstructorsAgree(url: string, sids: seq<Sid>, r: Reservation)
    ensures AddAll(New(url), sids) == FromSids(url, sids)
    ensures AddAll(ClearUsers(r), sids) == FromSids(r.url, sids)
  {
  }

  /** `AddUser`: makes an account object from the name, which raises for an empty or over-long
      name, translates it to a SID (an operating-system lookup, here an oracle) and appends it;
      if either step raises the reservation is left as it was. */
  function AddUser(r: Reservation, account: string, toSid: string -> Option<Sid>): (res: Result<Reservation, Failure>)
    ensures res.Failure? <==> !AccountNameAccepted(account) || toSid(account).None?
    ensures !AccountNameAccepted(account) ==> res == Failure(InvalidAccountName(account))
    ensures AccountNameAccepted(account) && res.Failure? ==> res.error == AccountNotMapped(account)
    ensures res.Success? ==> res.value.url == r.url && res.value.sids == r.sids + [toSid(account).value]
  {
    if !AccountNameAccepted(account) then Failure(InvalidAccountName(account))
    else
      match toSid(account)
      case None => Failure(AccountNotMapped(account))
      case Some(sid) => Success(AddSecurityIdentifier(r, sid))
  }

  /** The wrapper's `AddUser` and the dialog's lookup agree: the wrapper adds a SID exactly when
      the dialog's try block yields one, it is that SID, and a name the dialog rejects leaves the
      reservation as it was. Adding the same name twice lists its SID twice. */
  lemma AddUserAgreesWithLookup(r: Reservation, account: string, toSid: string -> Option<Sid>)
    ensures AddUser(r, account, toSid).Success? <==> AccountSid(account, toSid).Some?
    ensures AddUser(r, account, toSid).Success? ==>
      AddUser(r, account, toSid).value == AddSecurityIdentifier(r, AccountSid(account, toSid).value)
    ensures AddUser(r, account, toSid).Success? ==>
      var r1 := AddUser(r, account, toSid).value;
      AddUser(r1, account, toSid).Success? &&
      AddUser(r1, account, toSid).value.sids ==
        r.sids + [AccountSid(account, toSid).value, AccountSid(account, toSid).value]
  {
  }

  /** The `Users` property: the account name of every SID, in order; the first SID that has no
      account name raises. */
  method Users(r: Reservation, toName: Sid -> Option<string>) returns (names: Result<seq<string>, Failure>)
    ensures names.Success? <==> forall i :: 0 <= i < |r.sids| ==> toName(r.sids[i]).Some?
    ensures names.Success? ==>
      |names.value| == |r.sids| &&
      forall i :: 0 <= i < |r.sids| ==> toName(r.sids[i]) == Some(names.value[i])
    ensures names.Failure? ==>
      exists k :: 0 <= k < |r.sids| && names.error == SidNotMapped(r.sids[k]) &&
        toName(r.sids[k]).None? &&
        forall i :: 0 <= i < k ==> toName(r.sids[i]).Some?
  {
    var acc: seq<string> := [];
    var i := 0;
    while i < |r.sids|
      invariant 0 <= i <= |r.sids|
      invariant |acc| == i
      invariant forall j :: 0 <= j < i ==> toName(r.sids[j]) == Some(acc[j])
    {
      match toName(r.sids[i])
      case None =>
        return Failure(SidNotMapped(r.sids[i]));
      case Some(n) =>
        acc := acc + [n];
      i := i + 1;
    }
    return Success(acc);
  }

  /* ---------------------------------------------------------------------------------------- */
  /* The discretionary ACL                                                                    */
  /* ---------------------------------------------------------------------------------------- */

  /** `getDacl`: one allow-execute entry per SID, in list order. The ACE merging and
      canonical ordering that the .NET ACL class may apply afterwards is not modelled. */
  function Dacl(sids: seq<Sid>): (acl: seq<Ace>)
    ensures |acl| == |sids|
    ensures forall i :: 0 <= i < |sids| ==>
      acl[i].access == Allow && acl[i].sid == sids[i] && acl[i].mask == GenericExecute
  {
    if sids == [] then [] else Dacl(sids[..|sids| - 1]) + [GrantExecute(sids[|sids| - 1])]
  }

  /** The SIDs of a list of requested entries, in entry order. */
  function AclSids(acl: seq<Ace>): (sids: seq<Sid>)
  {
    if acl == [] then [] else AclSids(acl[..|acl| - 1]) + [acl[|acl| - 1].sid]
  }

  /** The SIDs of the requested entries are the reservation's list unchanged, duplicates
      included. This is about the requests only: the .NET ACL merges a second grant for the same
      SID into the first, which is not modelled. */
  lemma {:induction false} DaclSidsRoundTrip(sids: seq<Sid>)
    ensures AclSids(Dacl(sids)) == sids
    decreases |sids|
  {
    if sids != [] {
      var init := sids[..|sids| - 1];
      var acl := Dacl(sids);
      assert acl[..|acl| - 1] == Dacl(init);
      DaclSidsRoundTrip(init);
    }
  }

  /** Adding a SID adds exactly one entry, for that SID, at the end of the ACL. */
  lemma DaclOfAdd(r: Reservation, sid: Sid)
    ensures Dacl(AddSecurityIdentifier(r, sid).sids) == Dacl(r.sids) + [GrantExecute(sid)]
  {
  }

  /* ---------------------------------------------------------------------------------------- */
  /* GetAll                                                                                   */
  /* ---------------------------------------------------------------------------------------- */

  /** Token `k` is where enumeration stops: every earlier query succeeded, this one did not. */
  ghost predicate FirstStop(query: nat -> Reply, k: nat)
  {
    query(k).code != NoError && forall j :: 0 <= j < k ==> query(j).code == NoError
  }

  /** The reservation a successful reply describes. */
  function ReservationOf(reply: Reply): Reservation
  {
    FromSids(reply.urlPrefix, reply.sids)
  }

  /** The reservations of tokens `0 .. n-1`, in token order. */
  function Entries(query: nat -> Reply, n: nat): (rs: seq<Reservation>)
    ensures |rs| == n
    ensures forall i :: 0 <= i < n ==> rs[i] == ReservationOf(query(i))
  {
    if n == 0 then [] else Entries(query, n - 1) + [ReservationOf(query(n - 1))]
  }

  /** The queries for tokens `0 .. n-1`, in order. */
  function QueryCalls(n: nat): (cs: seq<Call>)
    ensures |cs| == n
    ensures forall i :: 0 <= i < n ==> cs[i] == Query(i)
  {
    if n == 0 then [] else QueryCalls(n - 1) + [Query(n - 1)]
  }

  /** What `GetAll` yields once initialisation succeeded and enumeration stopped at `stop`:
      an error carrying the stopping code unless it was "no more items", otherwise an error
      carrying terminate's code unless that succeeded, otherwise every entry before `stop`. */
  function Enumerated(query: nat -> Reply, stop: nat, terminate: Code): Result<seq<Reservation>, Failure>
  {
    if query(stop).code != NoMoreItems then Failure(Win32Error(query(stop).code))
    else if terminate != NoError then Failure(Win32Error(terminate))
    else Success(Entries(query, stop))
  }

  /** The paging loop of `GetAll`: query tokens 0, 1, 2, ... until a reply is not `NoError`,
      keeping the reservation of each `NoError` reply. The token is 32 bits wide, so the loop
      ends exactly when some token below 2^32 stops it; otherwise the native loop would wrap
      around and never end. */
  method QueryAll(query: nat -> Reply) returns (stop: nat, revs: seq<Reservation>, queries: seq<Call>)
    requires exists k :: 0 <= k < TokenLimit && query(k).code != NoError
    ensures stop < TokenLimit && FirstStop(query, stop)
    ensures revs == Entries(query, stop)
    ensures queries == QueryCalls(stop + 1)
  {
    ghost var bound :| 0 <= bound < TokenLimit && query(bound).code != NoError;
    revs := [];
    queries := [];
    var token: nat := 0;
    var code := NoError;
    while code == NoError
      invariant token <= bound + 1
      invariant code == NoError ==> token <= bound
      invariant code == NoError ==> forall j :: 0 <= j < token ==> query(j).code == NoError
      invariant code == NoError ==> revs == Entries(query, token)
      invariant code != NoError ==> 0 < token && FirstStop(query, token - 1)
      invariant code != NoError ==> revs == Entries(query, token - 1)
      invariant queries == QueryCalls(token)
      decreases bound + 1 - token
    {
      var reply := query(token);
      queries := queries + [Query(token)];
      code := reply.code;
      if code == NoError {
        revs := revs + [ReservationOf(reply)];
      }
      token := token + 1;
    }
    stop := token - 1;
  }

  /** `GetAll`: initialise; if that succeeded, run the paging loop and then terminate (in a
      `finally`), and read the outcome from the stopping code and terminate's code. */
  method GetAll(api: Api) returns (result: Result<seq<Reservation>, Failure>, calls: seq<Call>, stop: nat)
    requires api.initialize == NoError ==>
      exists k :: 0 <= k < TokenLimit && api.query(k).code != NoError
    ensures api.initialize != NoError ==>
      result == Failure(Win32Error(api.initialize)) && calls == [Initialize]
    ensures api.initialize == NoError ==>
      && stop < TokenLimit
      && FirstStop(api.query, stop)
      && calls == [Initialize] + QueryCalls(stop + 1) + [Terminate]
      && result == Enumerated(api.query, stop, api.terminate)
    ensures Balanced(calls, api)
  {
    stop := 0;
    if api.initialize != NoError {
      calls := [Initialize];
      result := Failure(Win32Error(api.initialize));
    } else {
      var revs, queries;
      stop, revs, queries := QueryAll(api.query);
      calls := [Initialize] + queries + [Terminate];
      var code := api.query(stop).code;
      if code != NoMoreItems {
        result := Failure(Win32Error(code));
      } else if api.terminate != NoError {
        result := Failure(Win32Error(api.terminate));
      } else {
        result := Success(revs);
      }
    }
    GetAllBalanced(api, calls, stop);
  }

  /** The stopping token is unique, so `GetAll`'s result is a function of the native replies. */
  lemma FirstStopUnique(query: nat -> Reply, a: nat, b: nat)
    requires FirstStop(query, a) && FirstStop(query, b)
    ensures a == b
  {
  }

  /** A successful enumeration lists, in token order, exactly the reservations of the queries
      that returned `NoError`, and it ended on "no more items" with a clean terminate. */
  lemma EnumeratedSuccess(query: nat -> Reply, stop: nat, terminate: Code)
    requires FirstStop(query, stop)
    ensures Enumerated(query, stop, terminate).Success? <==>
      query(stop).code == NoMoreItems && terminate == NoError
    ensures Enumerated(query, stop, terminate).Success? ==>
      var rs := Enumerated(query, stop, terminate).value;
      |rs| == stop &&
      forall i :: 0 <= i < |rs| ==> query(i).code == NoError && rs[i] == ReservationOf(query(i))
  {
  }

  /* ---------------------------------------------------------------------------------------- */
  /* Create and Delete                                                                        */
  /* ---------------------------------------------------------------------------------------- */

  /** A result paired with the native calls made to reach it. */
  datatype Run<+T> = Run(result: T, calls: seq<Call>)

  /** How `reserveURL` turns the last status code into an outcome. */
  function CreateResult(code: Code): (o: Outcome<Failure>)
    ensures o.Pass? <==> code == NoError
    ensures o == Fail(ArgumentError(AlreadyExistsMessage)) <==> code == AlreadyExists
    ensures o.Fail? && code != AlreadyExists ==> o.error == Win32Error(code)
  {
    if code == AlreadyExists then Fail(ArgumentError(AlreadyExistsMessage))
    else if code != NoError then Fail(Win32Error(code))
    else Pass
  }

  /** How `freeURL` turns the last status code into an outcome. */
  function DeleteResult(code: Code): (o: Outcome<Failure>)
    ensures o.Pass? <==> code == NoError
    ensures o.Fail? ==> o.error == Win32Error(code)
  {
    if code != NoError then Fail(Win32Error(code)) else Pass
  }

  /** Create and delete read a code the same way, except that "already exists" is an argument
      error for create and a plain native error for delete. */
  lemma CreateDeleteAgree(code: Code)
    ensures code != AlreadyExists ==> CreateResult(code) == DeleteResult(code)
    ensures code == AlreadyExists ==>
      CreateResult(code).error.ArgumentError? && DeleteResult(code) == Fail(Win32Error(code))
  {
  }

  /** `Create`: initialise, set the reservation's URL with its ACL, terminate (in a `finally`,
      its code ignored). The code the outcome is read from is initialise's when that failed,
      otherwise the set call's. */
  function Create(api: Api, r: Reservation): (run: Run<Outcome<Failure>>)
    ensures api.initialize != NoError ==>
      run.calls == [Initialize] && run.result == CreateResult(api.initialize)
    ensures api.initialize == NoError ==>
      run.calls == [Initialize, SetConfig(r.url, Dacl(r.sids)), Terminate] &&
      run.result == CreateResult(api.setConfig(r.url, Dacl(r.sids)))
    ensures run.result.Pass? <==>
      api.initialize == NoError && api.setConfig(r.url, Dacl(r.sids)) == NoError
  {
    var acl := Dacl(r.sids);
    if api.initialize != NoError then Run(CreateResult(api.initialize), [Initialize])
    else Run(CreateResult(api.setConfig(r.url, acl)), [Initialize, SetConfig(r.url, acl), Terminate])
  }

  /** `Delete`: initialise, delete the reservation's URL with its ACL, terminate (its code
      ignored). Any code other than `NoError` raises. */
  function Delete(api: Api, r: Reservation): (run: Run<Outcome<Failure>>)
    ensures api.initialize != NoError ==>
      run.calls == [Initialize] && run.result == Fail(Win32Error(api.initialize))
    ensures api.initialize == NoError ==>
      run.calls == [Initialize, DeleteConfig(r.url, Dacl(r.sids)), Terminate] &&
      run.result == DeleteResult(api.deleteConfig(r.url, Dacl(r.sids)))
    ensures run.result.Pass? <==>
      api.initialize == NoError && api.deleteConfig(r.url, Dacl(r.sids)) == NoError
  {
    var acl := Dacl(r.sids);
    if api.initialize != NoError then Run(DeleteResult(api.initialize), [Initialize])
    else Run(DeleteResult(api.deleteConfig(r.url, acl)), [Initialize, DeleteConfig(r.url, acl), Terminate])
  }

  /** Every native session the wrapper opens is closed: a trace either ends at a failed
      initialise or ends with exactly one terminate after a successful one. */
  ghost predicate Balanced(calls: seq<Call>, api: Api)
  {
    && |calls| >= 1 && calls[0] == Initialize
    && (api.initialize != NoError ==> |calls| == 1)
    && (api.initialize == NoError ==>
          |calls| >= 2 && calls[|calls| - 1] == Terminate &&
          forall i :: 1 <= i < |calls| - 1 ==> calls[i] != Initialize && calls[i] != Terminate)
  }

  lemma {:induction false} SessionsBalanced(api: Api, r: Reservation)
    ensures Balanced(Create(api, r).calls, api)
    ensures Balanced(Delete(api, r).calls, api)
  {
  }

  lemma GetAllBalanced(api: Api, calls: seq<Call>, stop: nat)
    requires api.initialize != NoError ==> calls == [Initialize]
    requires api.initialize == NoError ==> calls == [Initialize] + QueryCalls(stop + 1) + [Terminate]
    ensures Balanced(calls, api)
  {
  }
}
