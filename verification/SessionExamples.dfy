/** Runs in which the conditions of the general results fail, for any registered users. */
module SessionExamples {
  import opened Bytes
  import opened LoginTable
  import opened Sessions
  import opened SessionRuns
  import Accounts

  function Put(t: Server, i: nat, x: Session): Server
    requires i < |t.sessions|
  {
    t.(sessions := t.sessions[i := x])
  }

  function Ask(r: Request): Choice {
    Choice(Some(r), true)
  }

  const OK := Choice(None, true)

  lemma AfterTwo(t: Server, a: Action, b: Action)
    ensures After(t, [a, b]) == Next(Next(t, a), b)
  {
    assert After(t, []) == t;
    AfterOne(t, [], a);
    AfterOne(t, [a], b);
    assert [] + [a] == [a] && [a] + [b] == [a, b];
  }

  /** A ready session sends a login whose check passes. */
  lemma PassCheck(t: Server, i: nat, u: CStr, p: CStr) returns (acts: seq<Action>)
    requires i < |t.sessions| && t.sessions[i].pc == Ready && Some(u) !in t.shared.table
    ensures After(t, acts) == Put(t, i, Session(LoginVerify(u, p), t.sessions[i].user))
  {
    acts := [Work(i, Ask(Login(u, p))), Work(i, OK)];
    AfterTwo(t, acts[0], acts[1]);
    var t1 := Next(t, acts[0]);
    assert t1 == Put(t, i, Session(LoginCheck(u, p), t.sessions[i].user));
  }

  function Entered(t: Server, i: nat, u: Bytes): Server
    requires i < |t.sessions|
  {
    Put(t.(shared := t.shared.(table := Replaced(t.shared.table, None, Some(u)))), i, Session(Respond, u))
  }

  lemma Verified(t: Server, i: nat, u: CStr)
    requires i < |t.sessions| && t.sessions[i].pc.LoginVerify? && Admitted(t.sessions[i], t.shared.users, u)
    ensures Next(t, Work(i, OK)) == Put(t, i, Session(LoginAdd, u))
  {
    VerifiedName(t.shared.users, u);
  }

  lemma Added(t: Server, i: nat, u: Bytes)
    requires i < |t.sessions| && t.sessions[i] == Session(LoginAdd, u) && None in t.shared.table
    ensures After(t, [Work(i, OK)]) == Next(t, Work(i, OK)) == Entered(t, i, u)
  {
    assert [] + [Work(i, OK)] == [Work(i, OK)] && After(t, []) == t;
    AfterOne(t, [], Work(i, OK));
  }

  lemma Complete(t: Server, i: nat, u: Bytes) returns (acts: seq<Action>)
    requires i < |t.sessions| && Admitted(t.sessions[i], t.shared.users, u) && None in t.shared.table
    ensures After(t, acts) == Entered(t, i, u)
  {
    var a := Work(i, OK);
    if t.sessions[i].pc.LoginAdd? {
      acts := [a];
      Added(t, i, u);
    } else {
      acts := [a, a];
      AfterTwo(t, a, a);
      Verified(t, i, t.sessions[i].pc.name);
      Added(Put(t, i, Session(LoginAdd, u)), i, u);
      PutTwice(t, i, u);
    }
  }

  lemma PutTwice(t: Server, i: nat, u: Bytes)
    requires i < |t.sessions|
    ensures Entered(Put(t, i, Session(LoginAdd, u)), i, u) == Entered(t, i, u)
  {
  }

  /** Overlapping windows are enough: from any state in which two sessions are in the window for u with the right
      password, and two entries are free, u can get into the table twice. */
  lemma OverlapDoubles(t: Server, i: nat, j: nat, u: Bytes) returns (acts: seq<Action>)
    requires i < |t.sessions| && j < |t.sessions| && i != j && multiset(t.shared.table)[None] >= 2
    requires Admitted(t.sessions[i], t.shared.users, u) && Admitted(t.sessions[j], t.shared.users, u)
    ensures EntriesOf(After(t, acts), u) >= 2
  {
    assert None in t.shared.table;
    var first := Complete(t, i, u);
    var t1 := Entered(t, i, u);
    ReplacedCount(t.shared.table, None, Some(u), None);
    ReplacedCount(t.shared.table, None, Some(u), Some(u));
    assert None in t1.shared.table;
    var second := Complete(t1, j, u);
    ReplacedCount(t1.shared.table, None, Some(u), Some(u));
    acts := first + second;
    AfterAppend(t, first, second);
  }

  /** A login that completes and is answered. */
  lemma FinishLogin(t: Server, i: nat, u: CStr, p: CStr) returns (acts: seq<Action>)
    requires i < |t.sessions| && t.sessions[i].pc == LoginVerify(u, p)
    requires Accounts.Lookup(t.shared.users, u) == Some(p) && None in t.shared.table
    ensures After(t, acts) == Put(Entered(t, i, u), i, Session(Ready, u))
  {
    acts := Complete(t, i, u);
    AfterOne(t, acts, Work(i, OK));
    acts := acts + [Work(i, OK)];
  }

  function Gone(t: Entries, u: Bytes): Entries {
    if u == [] then t else Replaced(t, Some(u), None)
  }

  /** Its connection is lost. */
  lemma Hangup(t: Server, i: nat) returns (acts: seq<Action>)
    requires i < |t.sessions| && t.sessions[i].pc == Ready
    ensures After(t, acts) == Put(t.(shared := t.shared.(table := Gone(t.shared.table, t.sessions[i].user))), i,
                                  Session(Closed, t.sessions[i].user))
  {
    acts := [Work(i, OK), Work(i, OK)];
    AfterTwo(t, acts[0], acts[1]);
    assert Next(t, acts[0]) == Put(t, i, Session(Closing, t.sessions[i].user));
  }

  /** From a started server, one session logs in as u, then as v, and hangs up: nobody is connected and u is still
      in the table. */
  lemma ReloginLeaks(s: Server, u: CStr, p: CStr, v: CStr, q: CStr) returns (acts: seq<Action>)
    requires Started(s) && u != v && u != [] && v != []
    requires Accounts.Lookup(s.shared.users, u) == Some(p) && Accounts.Lookup(s.shared.users, v) == Some(q)
    ensures forall x :: x in After(s, acts).sessions ==> x.pc.Closed?
    ensures Some(u) in After(s, acts).shared.table && Stranded(s, acts, u) > 0
  {
    var t0 := Next(s, Accept);
    var t := s.shared.table;
    assert t[0] == None && t[1] == None;
    var a1 := PassCheck(t0, 0, u, p);
    var t1 := After(t0, a1);
    var a2 := FinishLogin(t1, 0, u, p);
    var t2 := After(t1, a2);
    assert t2.shared.table == t[0 := Some(u)];
    assert t2.shared.table[1] == None;
    var a3 := PassCheck(t2, 0, v, q);
    var t3 := After(t2, a3);
    var a4 := FinishLogin(t3, 0, v, q);
    var t4 := After(t3, a4);
    var a5 := Hangup(t4, 0);
    acts := Joined5(s, a1, a2, a3, a4, a5);
    LeftInTable(t, u, v);
    LeftAfterAllClosed(s, acts, u);
  }

  /** The password of the second login is wrong: current_user is cleared. */
  lemma FailLogin(t: Server, i: nat, v: CStr, q: CStr) returns (acts: seq<Action>)
    requires i < |t.sessions| && t.sessions[i].pc == LoginVerify(v, q)
    requires Accounts.Lookup(t.shared.users, v) != Some(q)
    ensures After(t, acts) == Put(t, i, Session(Ready, []))
  {
    acts := [Work(i, OK), Work(i, OK)];
    AfterTwo(t, acts[0], acts[1]);
    assert Next(t, acts[0]) == Put(t, i, Session(Respond, []));
  }

  /** From a started server, one session logs in as u, tries any other name with a wrong password, and hangs up:
      nobody is connected and u is still in the table. */
  lemma WrongPasswordLeaks(s: Server, u: CStr, p: CStr, v: CStr, q: CStr) returns (acts: seq<Action>)
    requires Started(s) && u != v && u != []
    requires Accounts.Lookup(s.shared.users, u) == Some(p) && Accounts.Lookup(s.shared.users, v) != Some(q)
    ensures forall x :: x in After(s, acts).sessions ==> x.pc.Closed?
    ensures Some(u) in After(s, acts).shared.table && Stranded(s, acts, u) > 0
  {
    var t0 := Next(s, Accept);
    var t := s.shared.table;
    assert t[0] == None;
    var a1 := PassCheck(t0, 0, u, p);
    var t1 := After(t0, a1);
    var a2 := FinishLogin(t1, 0, u, p);
    var t2 := After(t1, a2);
    assert t2.shared.table == t[0 := Some(u)];
    var a3 := PassCheck(t2, 0, v, q);
    var t3 := After(t2, a3);
    var a4 := FailLogin(t3, 0, v, q);
    var t4 := After(t3, a4);
    var a5 := Hangup(t4, 0);
    acts := Joined5(s, a1, a2, a3, a4, a5);
    assert t[0 := Some(u)][0] == Some(u);
    LeftAfterAllClosed(s, acts, u);
  }

  /** A ready session registers a name nobody has. */
  lemma Registers(t: Server, i: nat, u: CStr, p: CStr) returns (acts: seq<Action>)
    requires i < |t.sessions| && t.sessions[i].pc == Ready
    requires Accounts.Storable(u, p) && Accounts.Lookup(t.shared.users, u).None?
    ensures After(t, acts) == t.(shared := t.shared.(users := t.shared.users + Accounts.Record(u, p)))
  {
    var x := t.sessions[i];
    acts := [Work(i, Ask(Register(u, p))), Work(i, OK)];
    AfterTwo(t, acts[0], acts[1]);
    assert Next(t, acts[0]) == Put(t, i, Session(RegisterFind(u, p), x.user));
    var t1 := After(t, acts);
    assert t1 == Put(t, i, Session(RegisterAdd(u, p), x.user));
    AfterTwo(t1, Work(i, OK), Work(i, OK));
    AfterAppend(t, acts, [Work(i, OK), Work(i, OK)]);
    acts := acts + [Work(i, OK), Work(i, OK)];
    assert t.sessions[i := x] == t.sessions;
  }

  /** From a started server, one client registers a name that ends in a newline, logs in under the empty name and hangs
      up: nobody is connected and the empty name is in the table for ever. */
  lemma EmptyNameLeaks(s: Server, a: CStr, p: CStr, more: seq<Action>) returns (acts: seq<Action>)
    requires Started(s) && Accounts.ReadsOn(s.shared.users) && Accounts.Lookup(s.shared.users, []).None?
    requires Accounts.Storable(a + ['\n'], p) && a != [] && ':' !in a && '\n' !in a && '\n' !in p
    ensures forall x :: x in After(s, acts).sessions ==> x.pc.Closed?
    ensures Some([]) in After(s, acts).shared.table && Some([]) in After(s, acts + more).shared.table
  {
    var t0 := Next(s, Accept);
    var t := s.shared.table;
    assert t[0] == None;
    Accounts.EmptyNameRegistered(s.shared.users, a, p);
    var a1 := Registers(t0, 0, a + ['\n'], p);
    var t1 := After(t0, a1);
    var a2 := PassCheck(t1, 0, [], p);
    var t2 := After(t1, a2);
    var a3 := FinishLogin(t2, 0, [], p);
    var t3 := After(t2, a3);
    assert t3.shared.table == t[0 := Some([])];
    var a4 := Hangup(t3, 0);
    var t4 := After(t3, a4);
    assert After(t4, []) == t4;
    acts := Joined5(s, a1, a2, a3, a4, []);
    assert t[0 := Some([])][0] == Some([]);
    EmptyNameNeverLeaves(s, acts, more);
  }

  lemma Joined5(s: Server, a1: seq<Action>, a2: seq<Action>, a3: seq<Action>, a4: seq<Action>, a5: seq<Action>)
    returns (acts: seq<Action>)
    ensures After(s, acts) == After(After(After(After(After(Next(s, Accept), a1), a2), a3), a4), a5)
  {
    assert After(s, []) == s;
    AfterOne(s, [], Accept);
    assert [] + [Accept] == [Accept];
    acts := [Accept] + a1;
    AfterAppend(s, [Accept], a1);
    AfterAppend(s, acts, a2);
    acts := acts + a2;
    AfterAppend(s, acts, a3);
    acts := acts + a3;
    AfterAppend(s, acts, a4);
    acts := acts + a4;
    AfterAppend(s, acts, a5);
    acts := acts + a5;
  }

  lemma LeftInTable(t: Entries, u: Bytes, v: Bytes)
    requires |t| > 1 && t[0] == None && u != v
    ensures Some(u) in Replaced(Replaced(t[0 := Some(u)], None, Some(v)), Some(v), None)
  {
    var t1 := Replaced(t[0 := Some(u)], None, Some(v));
    assert t1[0] == Some(u);
    assert Replaced(t1, Some(v), None)[0] == Some(u);
  }

  /** From a started server, under any registered name: two sessions logged in at once. */
  lemma DoubleLogin(s: Server, u: CStr, p: CStr) returns (acts: seq<Action>)
    requires Started(s) && Accounts.Lookup(s.shared.users, u) == Some(p)
    ensures EntriesOf(After(s, acts), u) >= 2
  {
    var t := s.shared.table;
    assert t[0] == None && t[1] == None && t == [t[0], t[1]] + t[2..];
    assert multiset(t)[None] >= 2;
    var t0 := Next(Next(s, Accept), Accept);
    var a1 := PassCheck(t0, 0, u, p);
    var t1 := After(t0, a1);
    var a2 := PassCheck(t1, 1, u, p);
    var t2 := After(t1, a2);
    var a3 := OverlapDoubles(t2, 0, 1, u);
    var rest := Joined5(Next(s, Accept), [], [], a1, a2, a3);
    acts := [Accept] + rest;
    assert After(s, []) == s && After(t0, []) == t0;
    AfterOne(s, [], Accept);
    assert [] + [Accept] == [Accept];
    AfterAppend(s, [Accept], rest);
  }
}
