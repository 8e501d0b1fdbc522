/** The server's table of logged-in users: 100 entries in an array, searched from the front. */
module LoginTable {
  import opened Bytes
  import opened Lines

  const MAX_LOGGED_IN_USERS: nat := 100

  datatype LoggedInUser = LoggedInUser(username: Bytes, clientSock: int, isActive: bool)

  /** The table as the rest of the server sees it: which name each entry holds, if it is active. */
  type Entries = seq<Option<Bytes>>

  function Entry(e: LoggedInUser): Option<Bytes> {
    if e.isActive then Some(e.username) else None
  }

  /** Where x is first in the table; its length if it is nowhere. */
  function FirstOf(t: Entries, x: Option<Bytes>): (i: nat)
    ensures i <= |t|
    ensures i < |t| ==> t[i] == x
  {
    if t == [] || t[0] == x then 0 else 1 + FirstOf(t[1..], x)
  }

  lemma {:induction false} FirstOfFinds(t: Entries, x: Option<Bytes>)
    ensures FirstOf(t, x) < |t| <==> x in t
    ensures x !in t[..FirstOf(t, x)]
  {
    if t != [] && t[0] != x {
      FirstOfFinds(t[1..], x);
      assert t == [t[0]] + t[1..];
      assert t[..FirstOf(t, x)] == [t[0]] + t[1..][..FirstOf(t[1..], x)];
    }
  }

  lemma {:induction false} FirstOfIs(t: Entries, x: Option<Bytes>, i: nat)
    requires i <= |t| && x !in t[..i] && (i < |t| ==> t[i] == x)
    ensures FirstOf(t, x) == i
  {
    if i > 0 {
      assert t[0] == t[..i][0];
      assert t[1..][..i - 1] == t[..i][1..];
      FirstOfIs(t[1..], x, i - 1);
    }
  }

  /** The table after `before` in the first entry that held it became `after`; unchanged if there is no such entry. */
  function Replaced(t: Entries, before: Option<Bytes>, after: Option<Bytes>): (r: Entries)
    ensures |r| == |t|
  {
    if FirstOf(t, before) < |t| then t[FirstOf(t, before) := after] else t
  }

  /** Exactly one occurrence of `before` becomes one of `after`, if there is one; all other names keep their counts. */
  lemma ReplacedCounts(t: Entries, before: Option<Bytes>, after: Option<Bytes>)
    ensures multiset(Replaced(t, before, after)) ==
            if before in t then multiset(t) - multiset{before} + multiset{after} else multiset(t)
  {
    FirstOfFinds(t, before);
  }

  lemma ReplacedCount(t: Entries, before: Option<Bytes>, after: Option<Bytes>, y: Option<Bytes>)
    ensures before !in t ==> Replaced(t, before, after) == t
    ensures before in t ==>
              multiset(Replaced(t, before, after))[y] + One(before == y) == multiset(t)[y] + One(after == y)
  {
    FirstOfFinds(t, before);
    ReplacedCounts(t, before, after);
  }

  class Table {
    const users: array<LoggedInUser>

    ghost function View(): (t: Entries)
      reads users
      ensures |t| == users.Length
      ensures forall i :: 0 <= i < |t| ==> t[i] == Entry(users[i])
    {
      seq(users.Length, i requires 0 <= i < users.Length reads users => Entry(users[i]))
    }

    /** `init_logged_in_users`. */
    constructor ()
      ensures fresh(users) && users.Length == 100
      ensures forall i :: 0 <= i < |View()| ==> View()[i] == None
    {
      users := new LoggedInUser[MAX_LOGGED_IN_USERS](_ => LoggedInUser([], 0, false));
    }

    /** `is_user_already_logged_in`: the first active entry with the name, or -1. */
    method Find(name: Bytes) returns (index: int)
      ensures index == (if Some(name) in View() then FirstOf(View(), Some(name)) else -1)
    {
      var i := 0;
      while i < users.Length
        invariant i <= users.Length && Some(name) !in View()[..i]
      {
        if users[i].isActive && users[i].username == name {
          FirstOfIs(View(), Some(name), i);
          return i;
        }
        i := i + 1;
      }
      assert View()[..i] == View();
      return -1;
    }

    /** `add_logged_in_user`: takes the first inactive entry. */
    method Add(name: Bytes, sock: int) returns (ok: bool)
      modifies users
      ensures ok <==> None in old(View())
      ensures View() == Replaced(old(View()), None, Some(Truncated(name, MAX_ID_LEN - 1)))
    {
      ghost var was := View();
      var i := 0;
      while i < users.Length
        invariant i <= users.Length && View() == was && None !in was[..i]
      {
        if !users[i].isActive {
          FirstOfIs(was, None, i);
          users[i] := LoggedInUser(Truncated(name, MAX_ID_LEN - 1), sock, true);
          assert View() == was[i := Some(Truncated(name, MAX_ID_LEN - 1))];
          return true;
        }
        i := i + 1;
      }
      FirstOfIs(was, None, i);
      FirstOfFinds(was, None);
      return false;
    }

    /** `remove_logged_in_user`: clears the first active entry with the name. */
    method Remove(name: Bytes)
      modifies users
      ensures View() == Replaced(old(View()), Some(name), None)
    {
      ghost var was := View();
      var i := 0;
      while i < users.Length
        invariant i <= users.Length && View() == was && Some(name) !in was[..i]
      {
        if users[i].isActive && users[i].username == name {
          FirstOfIs(was, Some(name), i);
          users[i] := LoggedInUser([], users[i].clientSock, false);
          assert View() == was[i := None];
          return;
        }
        i := i + 1;
      }
      FirstOfIs(was, Some(name), i);
    }
  }
}
