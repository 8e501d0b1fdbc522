/** What one request achieves, in every run and however the other sessions move in between. */
module SessionRequests {
  import opened Bytes
  import opened LoginTable
  import opened Sessions
  import opened SessionRuns
  import Accounts
  import Scores

  // ---------- a session waits while the others move ----------

  predicate NotOf(acts: seq<Action>, i: nat) {
    forall a :: a in acts && a.Work? ==> a.i != i
  }

  lemma {:induction false} Waits(s: Server, i: nat, mid: seq<Action>)
    requires i < |s.sessions| && NotOf(mid, i)
    ensures i < |After(s, mid).sessions| && After(s, mid).sessions[i] == s.sessions[i]
  {
    if mid != [] {
      assert mid[|mid| - 1] in mid;
      Waits(s, i, mid[..|mid| - 1]);
    }
  }

  /** Session i takes one step; then the others move. */
  function Turn(s: Server, i: nat, c: Choice, mid: seq<Action>): Server {
    After(s, [Work(i, c)] + mid)
  }

  lemma TurnIs(s: Server, i: nat, c: Choice, mid: seq<Action>)
    requires i < |s.sessions| && NotOf(mid, i)
    ensures Turn(s, i, c, mid) == After(Next(s, Work(i, c)), mid)
    ensures i < |Turn(s, i, c, mid).sessions|
    ensures Turn(s, i, c, mid).sessions[i] == Handle(s.shared, s.sessions[i], c).1
  {
    assert After(s, []) == s && [] + [Work(i, c)] == [Work(i, c)];
    AfterOne(s, [], Work(i, c));
    AfterAppend(s, [Work(i, c)], mid);
    Waits(Next(s, Work(i, c)), i, mid);
  }

  // ---------- one entry more, one entry less ----------

  /** e is m, but for session i, which is x now, and for one entry of u less. */
  ghost predicate EntryLess(m: Server, i: nat, x: Session, u: Bytes, e: Server)
    requires i < |m.sessions|
  {
    && e == Server(m.shared.(table := e.shared.table), m.sessions[i := x])
    && EntriesOf(e, u) + 1 == EntriesOf(m, u)
    && forall v :: v != u ==> EntriesOf(e, v) == EntriesOf(m, v)
  }

  lemma RemovesOne(m: Server, i: nat, c: Choice)
    requires i < |m.sessions| && (m.sessions[i].pc.LogoutRemove? || m.sessions[i].pc.Closing?)
    requires m.sessions[i].user != [] && Some(m.sessions[i].user) in m.shared.table
    ensures var (sh, x) := Handle(m.shared, m.sessions[i], c);
            EntryLess(m, i, x, m.sessions[i].user, Next(m, Work(i, c)))
  {
    var u := m.sessions[i].user;
    ReplacedCounts(m.shared.table, Some(u), None);
  }

  lemma HolderHasEntry(s: Server, acts: seq<Action>, i: nat)
    requires Started(s) && i < |After(s, acts).sessions| && Holder(After(s, acts).sessions[i]).Some?
    ensures Some(After(s, acts).sessions[i].user) in After(s, acts).shared.table
  {
    var t := After(s, acts);
    var u := t.sessions[i].user;
    EntriesAccounted(s, acts, u);
    assert Held(t.sessions)[i] == Some(u);
    assert multiset(Held(t.sessions))[Some(u)] > 0;
  }

  // ---------- leaving ----------

  /** The check of a login lets it pass. */
  predicate Passes(e: Server, j: nat, d: Choice)
    requires j < |e.sessions| && e.sessions[j].pc.LoginCheck?
  {
    var x := e.sessions[j];
    Next(e, Work(j, d)) == e.(sessions := e.sessions[j := Session(LoginVerify(x.pc.name, x.pc.password), x.user)])
  }

  /** A logout: whatever happens between the request and its turn, the session is not logged in afterwards, one entry of
      its name is gone, and nothing else has changed. If that was the only entry, the name can log in again. */
  lemma LogoutLeaves(s: Server, acts: seq<Action>, i: nat, mid: seq<Action>, c: Choice)
    requires Started(s) && i < |After(s, acts).sessions| && NotOf(mid, i)
    requires After(s, acts).sessions[i].pc == Ready && After(s, acts).sessions[i].user != []
    ensures var u := After(s, acts).sessions[i].user;
            var m := After(s, acts + ([Work(i, Choice(Some(Logout), true))] + mid)); var e := Next(m, Work(i, c));
            && i < |m.sessions| && EntryLess(m, i, Session(Respond, []), u, e)
            && (EntriesOf(m, u) == 1 ==> forall j: nat, d ::
                  j < |e.sessions| && e.sessions[j].pc.LoginCheck? && e.sessions[j].pc.name == u ==> Passes(e, j, d))
  {
    var t := After(s, acts);
    var ask := Choice(Some(Logout), true);
    var more := [Work(i, ask)] + mid;
    AfterAppend(s, acts, more);
    TurnIs(t, i, ask, mid);
    HolderHasEntry(s, acts + more, i);
    RemovesOne(After(s, acts + more), i, c);
  }

  /** A lost connection of a logged-in session: the same. */
  lemma HangupLeaves(s: Server, acts: seq<Action>, i: nat, io: bool, mid: seq<Action>, c: Choice)
    requires Started(s) && i < |After(s, acts).sessions| && NotOf(mid, i)
    requires After(s, acts).sessions[i].user != []
    requires After(s, acts).sessions[i].pc == (if io then Ready else Respond)
    ensures var u := After(s, acts).sessions[i].user;
            var m := After(s, acts + ([Work(i, Choice(None, io))] + mid)); var e := Next(m, Work(i, c));
            && i < |m.sessions| && m.sessions[i] == Session(Closing, u)
            && EntryLess(m, i, Session(Closed, u), u, e)
  {
    var t := After(s, acts);
    var lost := Choice(None, io);
    var more := [Work(i, lost)] + mid;
    AfterAppend(s, acts, more);
    TurnIs(t, i, lost, mid);
    HolderHasEntry(s, acts + more, i);
    RemovesOne(After(s, acts + more), i, c);
  }

  /** And the session is closed for ever. */
  lemma {:induction false} ClosedForEver(s: Server, i: nat, acts: seq<Action>)
    requires i < |s.sessions| && s.sessions[i].pc == Closed
    ensures i < |After(s, acts).sessions| && After(s, acts).sessions[i] == s.sessions[i]
  {
    if acts != [] { ClosedForEver(s, i, acts[..|acts| - 1]); }
  }

  /** A logout by a session that is not logged in, and a query, change nothing. */
  lemma NothingChanges(s: Server, i: nat, r: Request, io: bool)
    requires i < |s.sessions| && s.sessions[i].pc == Ready && (r == Query || (r == Logout && s.sessions[i].user == []))
    ensures Next(s, Work(i, Choice(Some(r), io)))
            == s.(sessions := s.sessions[i := Session(Respond, s.sessions[i].user)])
  {
  }

  // ---------- submitting ----------

  /** A submission by a logged-in session whose write succeeds stores exactly that score under its name, as one more
      line of the file; one whose write fails, or by a session that is not logged in, stores nothing. */
  lemma SubmitStores(s: Server, i: nat, n: Int32, mid: seq<Action>, c: Choice)
    requires i < |s.sessions| && s.sessions[i].pc == Ready && NotOf(mid, i)
    ensures var u := s.sessions[i].user;
            var m := Turn(s, i, Choice(Some(Submit(n)), true), mid); var e := Next(m, Work(i, c));
            && i < |m.sessions|
            && if u != [] && c.io
               then e == m.(sessions := m.sessions[i := Session(Respond, u)],
                            shared := m.shared.(submitted := m.shared.submitted + [Scores.Score(u, n)],
                                                scores := m.shared.scores + (u + [':'] + Scores.Decimal(n) + ['\n'])))
               else if u != [] then e == m.(sessions := m.sessions[i := Session(Respond, u)])
               else m.sessions[i] == Session(Respond, [])
                    && Next(s, Work(i, Choice(Some(Submit(n)), true))).shared == s.shared
  {
    var u := s.sessions[i].user;
    TurnIs(s, i, Choice(Some(Submit(n)), true), mid);
    var m := Turn(s, i, Choice(Some(Submit(n)), true), mid);
    assert m.shared.scores + (u + [':'] + Scores.Decimal(n) + ['\n'])
           == m.shared.scores + (u + [':'] + Scores.Decimal(n)) + ['\n'];
  }

  // ---------- logging in ----------

  /** e is m, but for session i, which is x now, and for one entry of u more. */
  ghost predicate EntryMore(m: Server, i: nat, x: Session, u: Bytes, e: Server)
    requires i < |m.sessions|
  {
    && e == Server(m.shared.(table := e.shared.table), m.sessions[i := x])
    && EntriesOf(e, u) == EntriesOf(m, u) + 1
    && forall v :: v != u ==> EntriesOf(e, v) == EntriesOf(m, v)
  }

  lemma AddsOne(m: Server, i: nat, c: Choice)
    requires i < |m.sessions| && m.sessions[i].pc.LoginAdd? && None in m.shared.table
    ensures EntryMore(m, i, Session(Respond, m.sessions[i].user), m.sessions[i].user, Next(m, Work(i, c)))
  {
    ReplacedCounts(m.shared.table, None, Some(m.sessions[i].user));
  }

  /** The check: a login is refused if its name is in the table, and goes on otherwise. */
  lemma LoginChecked(s: Server, i: nat, u: CStr, p: CStr, mid: seq<Action>, c: Choice)
    requires i < |s.sessions| && s.sessions[i].pc == Ready && NotOf(mid, i)
    ensures var m := Turn(s, i, Choice(Some(Login(u, p)), true), mid); var e := Next(m, Work(i, c));
            && i < |m.sessions|
            && var pc := if Some(u) in m.shared.table then Respond else LoginVerify(u, p);
            e == m.(sessions := m.sessions[i := Session(pc, s.sessions[i].user)])
  {
    TurnIs(s, i, Choice(Some(Login(u, p)), true), mid);
  }

  /** From the passed check on: the session is logged in under the name, with one entry more in the table, if the
      password is the one found and there is a free entry when its turn comes; otherwise it is not logged in and nothing
      else has changed. */
  lemma LoginEnters(s: Server, i: nat, c: Choice, mid: seq<Action>, d: Choice)
    requires i < |s.sessions| && s.sessions[i].pc.LoginVerify? && NotOf(mid, i)
    ensures var u := s.sessions[i].pc.name;
            var m := Turn(s, i, c, mid); var e := Next(m, Work(i, d));
            && i < |m.sessions|
            && if c.io && Accounts.Lookup(s.shared.users, u) == Some(s.sessions[i].pc.password) then
                 if None in m.shared.table then EntryMore(m, i, Session(Respond, u), u, e)
                 else e == m.(sessions := m.sessions[i := Session(Respond, [])])
               else m.sessions[i] == Session(Respond, []) && Next(s, Work(i, c)).shared == s.shared
  {
    TurnIs(s, i, c, mid);
    var m := Turn(s, i, c, mid);
    if c.io && Accounts.Lookup(s.shared.users, s.sessions[i].pc.name) == Some(s.sessions[i].pc.password) {
      VerifiedName(s.shared.users, s.sessions[i].pc.name);
      if None in m.shared.table { AddsOne(m, i, d); }
    }
  }

  // ---------- registering ----------

  /** A registration is refused unless its name has 1 to 31 bytes, its password 1 to 71, and the name is not found. */
  lemma RegisterChecked(s: Server, i: nat, u: CStr, p: CStr, mid: seq<Action>, c: Choice)
    requires i < |s.sessions| && s.sessions[i].pc == Ready && NotOf(mid, i)
    ensures var x := s.sessions[i];
            var m := Turn(s, i, Choice(Some(Register(u, p)), true), mid); var e := Next(m, Work(i, c));
            && i < |m.sessions| && Next(s, Work(i, Choice(Some(Register(u, p)), true))).shared == s.shared
            && if 0 < |u| < 32 && 0 < |p| < 72 then
                 var found := !c.io || Accounts.Lookup(m.shared.users, u).Some?;
                 e == m.(sessions := m.sessions[i := Session(if found then Respond else RegisterAdd(u, p), x.user)])
               else m.sessions[i] == Session(Respond, x.user)
  {
    TurnIs(s, i, Choice(Some(Register(u, p)), true), mid);
  }

  /** From there on one line is appended, if the write succeeds. */
  lemma RegisterStores(s: Server, i: nat, c: Choice)
    requires i < |s.sessions| && s.sessions[i].pc.RegisterAdd?
    ensures var u, p := s.sessions[i].pc.name, s.sessions[i].pc.password;
            var line := if c.io then u + [':'] + p + ['\n'] else [];
            Next(s, Work(i, c)) == s.(sessions := s.sessions[i := Session(Respond, s.sessions[i].user)],
                                      shared := s.shared.(users := s.shared.users + line))
  {
    assert s.shared.users + [] == s.shared.users;
  }
}
