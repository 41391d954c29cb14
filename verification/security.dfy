/** The Windows access-control vocabulary the reservation wrapper uses: security identifiers
    and the access-control entries of a discretionary ACL. */
module Security {
  import opened Results

  /** A security identifier, compared by value (as `SecurityIdentifier.Equals` does). */
  datatype Sid = Sid(text: string)

  datatype AccessType = Allow | Deny

  /** The generic-execute access right, bit 29 of an access mask. */
  const GenericExecute: nat := 536870912

  /** One access-control entry: who, allowed or denied, with which access mask. Every entry the
      wrapper builds has no inheritance and no propagation flags, so those are not represented. */
  datatype Ace = Ace(access: AccessType, sid: Sid, mask: nat)

  /** The UTF-16 code units of one character: two for a character outside the Basic
      Multilingual Plane, which .NET stores as a surrogate pair, one otherwise. */
  function Utf16Units(c: char): nat
  {
    if c as int < 0x1_0000 then 1 else 2
  }

  /** The length .NET gives a string: its count of UTF-16 code units. */
  function Utf16Length(s: string): nat
  {
    if s == [] then 0 else Utf16Units(s[0]) + Utf16Length(s[1..])
  }

  /** A string has between one and two code units per character, and none only when empty. */
  lemma {:induction false} Utf16LengthBounds(s: string)
    ensures |s| <= Utf16Length(s) <= 2 * |s|
    ensures Utf16Length(s) == 0 <==> s == []
  {
    if s != [] {
      Utf16LengthBounds(s[1..]);
    }
  }

  /** A string of Basic Multilingual Plane characters has one code unit per character. */
  lemma {:induction false} Utf16LengthBmp(s: string)
    requires forall i :: 0 <= i < |s| ==> s[i] as int < 0x1_0000
    ensures Utf16Length(s) == |s|
  {
    if s != [] {
      assert forall i :: 0 <= i < |s[1..]| ==> s[1..][i] == s[i + 1];
      Utf16LengthBmp(s[1..]);
    }
  }

  /** A string of characters outside the Basic Multilingual Plane has two per character. */
  lemma {:induction false} Utf16LengthAstral(s: string)
    requires forall i :: 0 <= i < |s| ==> s[i] as int >= 0x1_0000
    ensures Utf16Length(s) == 2 * |s|
  {
    if s != [] {
      assert forall i :: 0 <= i < |s[1..]| ==> s[1..][i] == s[i + 1];
      Utf16LengthAstral(s[1..]);
    }
  }

  /** The longest account name the `NTAccount` constructor accepts, in UTF-16 code units. */
  const MaxAccountNameLength: nat := 512

  /** The `NTAccount` constructor raises `ArgumentException` for an empty name and for one
      whose .NET length exceeds `MaxAccountNameLength`; every other name makes an account
      object. */
  predicate AccountNameAccepted(name: string)
  {
    name != [] && Utf16Length(name) <= MaxAccountNameLength
  }

  /** The limit counts code units, not characters: 300 copies of U+1F600 are 300 characters
      but 600 code units, so the constructor rejects them. */
  lemma AstralNameRejected()
    ensures var name := seq(300, _ => '\U{1F600}');
      |name| <= MaxAccountNameLength && !AccountNameAccepted(name)
  {
    var name := seq(300, _ => '\U{1F600}');
    Utf16LengthAstral(name);
  }

  /** Making an account object from `name` and translating it to a SID, with either step able to
      raise: the translation is an operating-system lookup, given here as the oracle `toSid`. */
  function AccountSid(name: string, toSid: string -> Option<Sid>): (r: Option<Sid>)
    ensures r.Some? <==> AccountNameAccepted(name) && toSid(name).Some?
    ensures r.Some? ==> r == toSid(name) && 0 < |name| <= MaxAccountNameLength
    ensures Utf16Length(name) > MaxAccountNameLength ==> r.None?
  {
    Utf16LengthBounds(name);
    if AccountNameAccepted(name) then toSid(name) else None
  }

  /** The entry that grants `sid` the right to use a reservation. */
  function GrantExecute(sid: Sid): (a: Ace)
    ensures a.access == Allow && a.sid == sid
    ensures a.mask == GenericExecute && a.mask == 0x2000_0000
  {
    Ace(Allow, sid, GenericExecute)
  }
}
