/** The main window's one piece of logic: `getNameOfUsers`, which turns the list of account
    names of a reservation into the phrase shown in the grid and in the delete prompt.

    As written, a list of three or more names loses its second-to-last name and gets a double
    space before "and": ["a", "b", "c"] reads "a,  and c". `NameOfUsers` models that code
    exactly; `NameOfUsersIntended` is the evidently intended "a, b and c". */
module MainForm {

  /** `s` occurs in `r` starting at index `k`. */
  ghost predicate OccursAt(s: string, r: string, k: int)
  {
    0 <= k && k + |s| <= |r| && r[k..k + |s|] == s
  }

  /** `s` occurs somewhere in `r`. */
  ghost predicate Occurs(s: string, r: string)
  {
    exists k :: OccursAt(s, r, k)
  }

  lemma OccursInLeft(s: string, a: string, b: string)
    requires Occurs(s, a)
    ensures Occurs(s, a + b)
  {
    var k :| OccursAt(s, a, k);
    assert (a + b)[k..k + |s|] == a[k..k + |s|];
    assert OccursAt(s, a + b, k);
  }

  lemma OccursAtEnd(s: string, a: string)
    ensures Occurs(s, a + s)
  {
    assert (a + s)[|a|..|a| + |s|] == s;
    assert OccursAt(s, a + s, |a|);
  }

  /* ---------------------------------------------------------------------------------------- */
  /* As written                                                                               */
  /* ---------------------------------------------------------------------------------------- */

  /** The loop of the default case: each name followed by ", ". */
  function CommaList(names: seq<string>): string
  {
    if names == [] then ""
    else CommaList(names[..|names| - 1]) + names[|names| - 1] + ", "
  }

  /** Total length of `names` with two characters added after each one. */
  function ListedLength(names: seq<string>): nat
  {
    if names == [] then 0 else ListedLength(names[..|names| - 1]) + |names[|names| - 1]| + 2
  }

  /** `getNameOfUsers` as written. */
  function NameOfUsers(users: seq<string>): (r: string)
    ensures |users| == 0 ==> r == ""
    ensures |users| >= 1 ==> |users[|users| - 1]| <= |r| && r[|r| - |users[|users| - 1]|..] == users[|users| - 1]
    ensures |users| >= 2 ==>
      (|r| >= 5 + |users[|users| - 1]| &&
       r[|r| - |users[|users| - 1]| - 5..|r| - |users[|users| - 1]|] == " and ")
  {
    match |users|
    case 0 => ""
    case 1 => users[0]
    case 2 => users[0] + " and " + users[1]
    case _ => CommaList(users[..|users| - 2]) + " and " + users[|users| - 1]
  }

  /** The small cases: nothing, the one name, and the two names joined by " and ". */
  lemma NameOfUsersShortLists(users: seq<string>)
    ensures |users| == 0 ==> NameOfUsers(users) == ""
    ensures |users| == 1 ==> NameOfUsers(users) == users[0]
    ensures |users| == 2 ==> NameOfUsers(users) == users[0] + " and " + users[1]
  {
  }

  /** Splitting the loop's input anywhere splits its text at the same point: the text for
      `a + b` is the text for `a` followed by the text for `b`. */
  lemma {:induction false} CommaListAppend(a: seq<string>, b: seq<string>)
    ensures CommaList(a + b) == CommaList(a) + CommaList(b)
    decreases |b|
  {
    if b != [] {
      var b' := b[..|b| - 1];
      assert (a + b)[..|a + b| - 1] == a + b';
      var last := b[|b| - 1];
      assert (a + b)[|a + b| - 1] == last;
      CommaListAppend(a, b');
      calc {
        CommaList(a + b);
        CommaList(a + b') + last + ", ";
        CommaList(a) + CommaList(b') + last + ", ";
        CommaList(a) + (CommaList(b') + last + ", ");
        CommaList(a) + CommaList(b);
      }
    } else {
      assert a + b == a;
    }
  }

  /** The loop writes name `i` and its ", " right after the text of the names before it. */
  lemma CommaListAt(names: seq<string>, i: int)
    requires 0 <= i < |names|
    ensures OccursAt(names[i] + ", ", CommaList(names), |CommaList(names[..i])|)
  {
    var p := CommaList(names[..i]);
    var w := names[i] + ", ";
    assert names == names[..i] + [names[i]] + names[i + 1..];
    CommaListAppend(names[..i] + [names[i]], names[i + 1..]);
    CommaListAppend(names[..i], [names[i]]);
    assert CommaList([names[i]]) == w by {
      assert [names[i]][..0] == [];
    }
    assert CommaList(names) == p + w + CommaList(names[i + 1..]);
    assert (p + w + CommaList(names[i + 1..]))[|p|..|p| + |w|] == w;
  }

  /** For three or more names, name `i` of the first n-2 appears followed by ", " at offset
      Σ_{j<i} (|u[j]| + 2): right after the names before it, each with its ", ". */
  lemma NameOfUsersLongLists(users: seq<string>, i: int)
    requires |users| >= 3
    requires 0 <= i < |users| - 2
    ensures OccursAt(users[i] + ", ", NameOfUsers(users), ListedLength(users[..i]))
  {
    CommaListLength(users[..i]);
    var front := users[..|users| - 2];
    CommaListAt(front, i);
    assert front[..i] == users[..i];
    var c := CommaList(front);
    var r := NameOfUsers(users);
    assert r == c + (" and " + users[|users| - 1]);
    var k := |CommaList(users[..i])|;
    var w := users[i] + ", ";
    assert r[k..k + |w|] == c[k..k + |w|];
  }

  /** The second-to-last name of a list of three or more never reaches the phrase: changing it
      changes nothing. */
  lemma NameOfUsersIgnoresSecondToLast(users: seq<string>, other: string)
    requires |users| >= 3
    ensures NameOfUsers(users[|users| - 2 := other]) == NameOfUsers(users)
  {
    var v := users[|users| - 2 := other];
    assert v[..|v| - 2] == users[..|users| - 2];
  }

  lemma {:induction false} CommaListLength(names: seq<string>)
    ensures |CommaList(names)| == ListedLength(names)
    decreases |names|
  {
    if names != [] {
      CommaListLength(names[..|names| - 1]);
    }
  }

  /** For three or more names the phrase is Σ_{i<n-2} (|u[i]| + 2) + 5 + |u[n-1]| long. */
  lemma NameOfUsersLength(users: seq<string>)
    requires |users| >= 3
    ensures |NameOfUsers(users)| == ListedLength(users[..|users| - 2]) + 5 + |users[|users| - 1]|
  {
    CommaListLength(users[..|users| - 2]);
  }

  /** The three-name example: "b" is dropped and a double space appears. */
  lemma NameOfUsersDropsName()
    ensures NameOfUsers(["a", "b", "c"]) == "a,  and c"
    ensures !Occurs("b", NameOfUsers(["a", "b", "c"]))
  {
    var r := NameOfUsers(["a", "b", "c"]);
    assert ["a", "b", "c"][..1] == ["a"];
    assert ["a"][..0] == [];
    assert r == "a,  and c";
    forall k | 0 <= k < |r|
      ensures !OccursAt("b", r, k)
    {
      if k + 1 <= |r| {
        assert r[k..k + 1][0] == r[k];
      }
    }
  }

  /* ---------------------------------------------------------------------------------------- */
  /* As intended                                                                              */
  /* ---------------------------------------------------------------------------------------- */

  /** The names separated by ", ". */
  function Join(names: seq<string>): string
  {
    if |names| <= 1 then (if names == [] then "" else names[0])
    else Join(names[..|names| - 1]) + ", " + names[|names| - 1]
  }

  /** The evidently intended phrase: all but the last name separated by ", ", then " and "
      and the last name, as in the two-name case. */
  function NameOfUsersIntended(users: seq<string>): (r: string)
    ensures |users| <= 2 ==> r == NameOfUsers(users)
  {
    if |users| <= 1 then NameOfUsers(users)
    else Join(users[..|users| - 1]) + " and " + users[|users| - 1]
  }

  lemma {:induction false} JoinMentions(names: seq<string>, i: int)
    requires 0 <= i < |names|
    ensures Occurs(names[i], Join(names))
    decreases |names|
  {
    var n := |names|;
    if n == 1 {
      assert Join(names) == "" + names[0];
      OccursAtEnd(names[0], "");
    } else if i == n - 1 {
      OccursAtEnd(names[i], Join(names[..n - 1]) + ", ");
    } else {
      JoinMentions(names[..n - 1], i);
      OccursInLeft(names[i], Join(names[..n - 1]), ", " + names[n - 1]);
      assert Join(names) == Join(names[..n - 1]) + (", " + names[n - 1]);
    }
  }

  /** Every name, including the second-to-last, appears in the intended phrase. */
  lemma NameOfUsersIntendedMentionsAll(users: seq<string>, i: int)
    requires 0 <= i < |users|
    ensures Occurs(users[i], NameOfUsersIntended(users))
  {
    var n := |users|;
    var r := NameOfUsersIntended(users);
    if n == 1 {
      OccursAtEnd(users[0], "");
      assert r == "" + users[0];
    } else if i == n - 1 {
      OccursAtEnd(users[i], Join(users[..n - 1]) + " and ");
    } else {
      JoinMentions(users[..n - 1], i);
      OccursInLeft(users[i], Join(users[..n - 1]), " and " + users[n - 1]);
      assert r == Join(users[..n - 1]) + (" and " + users[n - 1]);
    }
  }

  /** Sum of the lengths of `names`. */
  function TotalLength(names: seq<string>): nat
  {
    if names == [] then 0 else TotalLength(names[..|names| - 1]) + |names[|names| - 1]|
  }

  lemma {:induction false} JoinLength(names: seq<string>)
    requires |names| >= 1
    ensures |Join(names)| == TotalLength(names) + 2 * (|names| - 1)
    decreases |names|
  {
    if |names| == 1 {
      assert names[..0] == [];
    } else {
      JoinLength(names[..|names| - 1]);
    }
  }

  /** For two or more names the intended phrase holds every name, a ", " between consecutive
      names before the last, and " and " before the last: no name is lost, no space doubled. */
  lemma NameOfUsersIntendedLength(users: seq<string>)
    requires |users| >= 2
    ensures |NameOfUsersIntended(users)| == TotalLength(users) + 2 * (|users| - 2) + 5
  {
    JoinLength(users[..|users| - 1]);
    assert users[..|users|][..|users| - 1] == users[..|users| - 1];
    assert users[..|users|] == users;
  }
}
