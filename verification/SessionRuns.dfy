/** What holds of every run of the server, for every interleaving of its sessions. */
module SessionRuns {
  import opened Bytes
  import opened Lines
  import opened RecordFiles
  import opened LoginTable
  import opened Sessions
  import Accounts
  import Scores

  lemma AfterOne(s: Server, acts: seq<Action>, a: Action)
    ensures After(s, acts + [a]) == Next(After(s, acts), a)
  {
    assert (acts + [a])[..|acts|] == acts;
  }

  lemma {:induction false} AfterAppend(s: Server, acts: seq<Action>, more: seq<Action>)
    ensures After(s, acts + more) == After(After(s, acts), more)
  {
    if more == [] {
      assert acts + more == acts;
    } else {
      AfterAppend(s, acts, more[..|more| - 1]);
      assert (acts + more)[..|acts + more| - 1] == acts + more[..|more| - 1];
    }
  }

  // ---------- conservation ----------

  ghost predicate Conserved(s: Server) {
    forall u :: EntriesOf(s, u) == HoldersOf(s, u)
  }

  ghost predicate NothingStranded(s: Server, acts: seq<Action>) {
    forall u :: Stranded(s, acts, u) == 0
  }

  /** Entries and logged-in sessions agree on every name if and only if no logged-in session ever passed the check of a
      second login, and nobody was ever added under the empty name. */
  lemma ConservedIff(s: Server, acts: seq<Action>)
    requires Started(s)
    ensures Conserved(After(s, acts)) <==> NothingStranded(s, acts)
  {
    var t := After(s, acts);
    if Conserved(t) {
      forall u ensures Stranded(s, acts, u) == 0 {
        EntriesAccounted(s, acts, u);
        assert EntriesOf(t, u) == HoldersOf(t, u);
      }
    } else {
      var u :| EntriesOf(t, u) != HoldersOf(t, u);
      EntriesAccounted(s, acts, u);
    }
  }

  /** Once every handler has exited, the entries left for a name are exactly the stranded ones. */
  lemma LeftAfterAllClosed(s: Server, acts: seq<Action>, u: Bytes)
    requires Started(s)
    requires forall x :: x in After(s, acts).sessions ==> x.pc.Closed?
    ensures EntriesOf(After(s, acts), u) == Stranded(s, acts, u)
  {
    EntriesAccounted(s, acts, u);
    var xs := After(s, acts).sessions;
    forall i | 0 <= i < |xs| ensures Held(xs)[i] == None {
      assert xs[i] in xs;
    }
    assert Some(u) !in Held(xs);
  }

  lemma {:induction false} StrandedGrow(s: Server, acts: seq<Action>, more: seq<Action>, u: Bytes)
    ensures Stranded(s, acts + more, u) >= Stranded(s, acts, u)
  {
    if more == [] {
      assert acts + more == acts;
    } else {
      StrandedGrow(s, acts, more[..|more| - 1], u);
      assert (acts + more)[..|acts + more| - 1] == acts + more[..|more| - 1];
    }
  }

  /** A stranded entry stays in the table whatever happens later, and every later login under its name is refused. */
  lemma LostNameLockedOut(s: Server, acts: seq<Action>, more: seq<Action>, u: CStr, p: CStr, x: Session, c: Choice)
    requires Started(s) && Stranded(s, acts, u) > 0 && x.pc == LoginCheck(u, p)
    ensures EntriesOf(After(s, acts + more), u) >= Stranded(s, acts, u)
    ensures Handle(After(s, acts + more).shared, x, c).1.pc == Respond
  {
    StrandedGrow(s, acts, more, u);
    EntriesAccounted(s, acts + more, u);
    assert Some(u) in After(s, acts + more).shared.table;
  }

  lemma NobodyHoldsEmpty(s: Server)
    ensures HoldersOf(s, []) == 0
  {
    forall i | 0 <= i < |s.sessions| ensures Held(s.sessions)[i] != Some([]) {
    }
    assert Some([]) !in Held(s.sessions);
  }

  /** Under the empty name every entry ever added stays for ever: nobody counts as logged in under it. */
  lemma EmptyNameNeverLeaves(s: Server, acts: seq<Action>, more: seq<Action>)
    requires Started(s)
    ensures EntriesOf(After(s, acts), []) == Stranded(s, acts, [])
    ensures EntriesOf(After(s, acts + more), []) >= EntriesOf(After(s, acts), [])
  {
    EntriesAccounted(s, acts, []);
    EntriesAccounted(s, acts + more, []);
    NobodyHoldsEmpty(After(s, acts));
    NobodyHoldsEmpty(After(s, acts + more));
    StrandedGrow(s, acts, more, []);
  }

  // ---------- first registration wins ----------

  lemma StepUsers(s: Server, a: Action) returns (g: Bytes)
    requires Terminated(s.shared.users)
    ensures Next(s, a).shared.users == s.shared.users + g && Terminated(Next(s, a).shared.users)
  {
    g := [];
    if a.Work? && a.i < |s.sessions| && s.sessions[a.i].pc.RegisterAdd? && a.choice.io {
      g := Accounts.Record(s.sessions[a.i].pc.name, s.sessions[a.i].pc.password);
    } else {
      assert s.shared.users + g == s.shared.users;
    }
  }

  lemma {:induction false} UsersGrow(s: Server, acts: seq<Action>) returns (g: Bytes)
    requires Terminated(s.shared.users)
    ensures After(s, acts).shared.users == s.shared.users + g && Terminated(After(s, acts).shared.users)
  {
    if acts == [] {
      g := [];
      assert s.shared.users + g == s.shared.users;
    } else {
      var f := UsersGrow(s, acts[..|acts| - 1]);
      var h := StepUsers(After(s, acts[..|acts| - 1]), acts[|acts| - 1]);
      g := f + h;
      assert s.shared.users + (f + h) == s.shared.users + f + h;
    }
  }

  /** Once a name has a password it has that password for ever, whatever registrations follow or race. */
  lemma FirstRegistrationWins(s: Server, acts: seq<Action>, more: seq<Action>, u: Bytes)
    requires Started(s) && Accounts.Lookup(After(s, acts).shared.users, u).Some?
    ensures Accounts.Lookup(After(s, acts + more).shared.users, u) == Accounts.Lookup(After(s, acts).shared.users, u)
  {
    AfterAppend(s, acts, more);
    var f := UsersGrow(s, acts);
    var g := UsersGrow(After(s, acts), more);
    Accounts.LookupStable(After(s, acts).shared.users, g, u);
  }

  // ---------- at most one login per name ----------

  /** In the window for u and sure to be verified: only a full table can refuse it now. */
  predicate Admitted(x: Session, users: Bytes, u: Bytes) {
    (x.pc.LoginAdd? && x.user == u)
    || (x.pc.LoginVerify? && x.pc.name == u && Accounts.Lookup(users, u) == Some(x.pc.password))
  }

  /** No two sessions are between check and add for one name, both with the right password. */
  ghost predicate NoOverlap(s: Server) {
    forall i, j, u ::
      (0 <= i < |s.sessions| && 0 <= j < |s.sessions|
       && Admitted(s.sessions[i], s.shared.users, u) && Admitted(s.sessions[j], s.shared.users, u))
      ==> i == j
  }

  ghost predicate AtMostOnce(s: Server) {
    forall u :: EntriesOf(s, u) <= 1
  }

  /** Names in the table, and names about to enter it, can be looked up; a name about to enter it is not there yet. */
  ghost predicate Entering(s: Server) {
    && Terminated(s.shared.users)
    && (forall u :: Some(u) in s.shared.table ==> Accounts.Lookup(s.shared.users, u).Some?)
    && (forall i :: 0 <= i < |s.sessions| ==> AddKnown(s.shared.users, s.sessions[i]))
    && (forall i, u ::
          0 <= i < |s.sessions| && Admitted(s.sessions[i], s.shared.users, u) ==> Some(u) !in s.shared.table)
  }

  predicate AddKnown(users: Bytes, x: Session) {
    x.pc.LoginAdd? ==> Accounts.Lookup(users, x.user).Some?
  }

  lemma VerifiedName(users: Bytes, u: CStr)
    requires Accounts.Lookup(users, u).Some?
    ensures Truncated(u, MAX_ID_LEN - 1) == u
  {
    Accounts.FoundNamesAreClean(users, u);
  }

  lemma AddStep(sh: Shared, x: Session, c: Choice, u: Bytes)
    requires x.pc.LoginAdd?
    ensures multiset(Handle(sh, x, c).0.table)[Some(u)] <= multiset(sh.table)[Some(u)] + One(x.user == u)
  {
    ReplacedCount(sh.table, None, Some(x.user), Some(u));
  }

  lemma RemoveStep(sh: Shared, x: Session, c: Choice, u: Bytes)
    requires x.pc.LogoutRemove? || x.pc.Closing?
    ensures multiset(Handle(sh, x, c).0.table)[Some(u)] <= multiset(sh.table)[Some(u)]
  {
    ReplacedCount(sh.table, Some(x.user), None, Some(u));
  }

  lemma TableStep(sh: Shared, x: Session, c: Choice, u: Bytes)
    ensures multiset(Handle(sh, x, c).0.table)[Some(u)]
            <= multiset(sh.table)[Some(u)] + One(x.pc.LoginAdd? && x.user == u)
  {
    if x.pc.LoginAdd? {
      AddStep(sh, x, c, u);
    } else if x.pc.LogoutRemove? || x.pc.Closing? {
      RemoveStep(sh, x, c, u);
    }
  }

  /** A handler is admitted only after passing the check, and enters the table under the same name. */
  lemma AdmittedStep(sh: Shared, x: Session, c: Choice, u: Bytes)
    requires Admitted(Handle(sh, x, c).1, Handle(sh, x, c).0.users, u)
    ensures Admitted(x, sh.users, u) || Some(u) !in sh.table
    ensures Handle(sh, x, c).0.table == sh.table
  {
    if x.pc.LoginVerify? && Accounts.Lookup(sh.users, x.pc.name).Some? { VerifiedName(sh.users, x.pc.name); }
  }

  lemma AddKnownStep(sh: Shared, x: Session, c: Choice)
    ensures AddKnown(Handle(sh, x, c).0.users, Handle(sh, x, c).1)
  {
    if x.pc.LoginVerify? && Accounts.Lookup(sh.users, x.pc.name).Some? { VerifiedName(sh.users, x.pc.name); }
  }

  lemma StillFound(s: Server, a: Action, u: Bytes)
    requires Terminated(s.shared.users) && Accounts.Lookup(s.shared.users, u).Some?
    ensures Accounts.Lookup(Next(s, a).shared.users, u) == Accounts.Lookup(s.shared.users, u)
  {
    var g := StepUsers(s, a);
    Accounts.LookupStable(s.shared.users, g, u);
  }

  /** A name can enter the table only where it is not, and no other session is admitted under it. */
  lemma StepTable(s: Server, a: Action, u: Bytes)
    requires Entering(s) && a.Work? && a.i < |s.sessions|
    ensures Some(u) in Next(s, a).shared.table ==>
              Some(u) in s.shared.table || (s.sessions[a.i].pc.LoginAdd? && s.sessions[a.i].user == u)
    ensures EntriesOf(s, u) <= 1 ==> EntriesOf(Next(s, a), u) <= 1
  {
    TableStep(s.shared, s.sessions[a.i], a.choice, u);
    if s.sessions[a.i].pc.LoginAdd? && s.sessions[a.i].user == u {
      assert Admitted(s.sessions[a.i], s.shared.users, u);
    }
  }

  /** Another session than the one that moves is still admitted only under a name that is not in the table: if a
      registration has just made its password right, the name could not be found before. */
  lemma OthersStep(s: Server, a: Action, j: nat, u: Bytes)
    requires Entering(s) && NoOverlap(s) && a.Work? && a.i < |s.sessions| && j < |s.sessions| && j != a.i
    requires Admitted(s.sessions[j], Next(s, a).shared.users, u)
    ensures Some(u) !in Next(s, a).shared.table
  {
    StepTable(s, a, u);
    if Admitted(s.sessions[j], s.shared.users, u) {
      assert s.sessions[a.i].pc.LoginAdd? && s.sessions[a.i].user == u ==> Admitted(s.sessions[a.i], s.shared.users, u);
    } else {
      if Accounts.Lookup(s.shared.users, u).Some? { StillFound(s, a, u); }
      assert s.sessions[a.i].pc.LoginAdd? ==> Next(s, a).shared.users == s.shared.users;
    }
  }

  lemma StepEntering(s: Server, a: Action)
    requires Entering(s) && NoOverlap(s)
    ensures Entering(Next(s, a))
  {
    var t := Next(s, a);
    var g := StepUsers(s, a);
    forall u | Some(u) in t.shared.table ensures Accounts.Lookup(t.shared.users, u).Some? {
      if a.Work? && a.i < |s.sessions| {
        StepTable(s, a, u);
        assert AddKnown(s.shared.users, s.sessions[a.i]);
      }
      StillFound(s, a, u);
    }
    forall j | 0 <= j < |t.sessions| ensures AddKnown(t.shared.users, t.sessions[j]) {
      if a.Work? && j == a.i {
        AddKnownStep(s.shared, s.sessions[j], a.choice);
      } else if j < |s.sessions| {
        assert AddKnown(s.shared.users, s.sessions[j]);
        if s.sessions[j].pc.LoginAdd? { StillFound(s, a, s.sessions[j].user); }
      }
    }
    forall j, u | 0 <= j < |t.sessions| && Admitted(t.sessions[j], t.shared.users, u)
      ensures Some(u) !in t.shared.table
    {
      if a.Work? && a.i < |s.sessions| {
        if j == a.i { AdmittedStep(s.shared, s.sessions[j], a.choice, u); } else { OthersStep(s, a, j, u); }
      } else {
        assert j < |s.sessions| ==> Admitted(s.sessions[j], s.shared.users, u);
      }
    }
  }

  lemma StepAtMostOnce(s: Server, a: Action)
    requires AtMostOnce(s) && Entering(s)
    ensures AtMostOnce(Next(s, a))
  {
    forall u ensures EntriesOf(Next(s, a), u) <= 1 {
      assert EntriesOf(s, u) <= 1;
      if a.Work? && a.i < |s.sessions| { StepTable(s, a, u); }
    }
  }

  /** If no two logins under one name are ever between check and add with the right password at the same time, no name
      is ever in the table twice. */
  lemma {:induction false} LoginsUnique(s: Server, acts: seq<Action>)
    requires Started(s)
    requires forall k :: 0 <= k <= |acts| ==> NoOverlap(After(s, acts[..k]))
    ensures AtMostOnce(After(s, acts)) && Entering(After(s, acts))
  {
    if acts == [] {
      assert forall u :: Some(u) !in s.shared.table;
    } else {
      var rest := acts[..|acts| - 1];
      forall k | 0 <= k <= |rest| ensures NoOverlap(After(s, rest[..k])) {
        assert rest[..k] == acts[..k];
      }
      assert rest[..|rest|] == rest;
      LoginsUnique(s, rest);
      StepEntering(After(s, rest), acts[|acts| - 1]);
      StepAtMostOnce(After(s, rest), acts[|acts| - 1]);
    }
  }

  // ---------- score lines ----------

  predicate Registered(users: Bytes, u: Bytes) {
    u != [] && Accounts.Lookup(users, u).Some?
  }

  ghost predicate NamesKnown(s: Server) {
    && Terminated(s.shared.users)
    && (forall x :: x in s.sessions && (x.user != [] || x.pc.Saving?) ==> Registered(s.shared.users, x.user))
    && (forall r :: r in s.shared.submitted ==> Registered(s.shared.users, r.name) && Scores.IsInt(r.score))
    && s.shared.scores == Joined(Scores.PrintedAll(s.shared.submitted))
  }

  lemma SavedOk(sh: Shared, r: Scores.Score)
    requires sh.scores == Joined(Scores.PrintedAll(sh.submitted))
    ensures Saved(sh, r).scores == Joined(Scores.PrintedAll(Saved(sh, r).submitted))
  {
    JoinedAppend(Scores.PrintedAll(sh.submitted), Scores.Printed(r));
    assert Scores.PrintedAll(sh.submitted + [r]) == Scores.PrintedAll(sh.submitted) + [Scores.Printed(r)];
    assert sh.scores + (Scores.Printed(r) + ['\n']) == sh.scores + Scores.Printed(r) + ['\n'];
  }

  lemma StillRegistered(s: Server, a: Action, u: Bytes)
    requires Terminated(s.shared.users) && Registered(s.shared.users, u)
    ensures Registered(Next(s, a).shared.users, u)
  {
    StillFound(s, a, u);
  }

  /** current_user is set by a verified login, kept, or cleared. */
  lemma HandleUser(sh: Shared, x: Session, c: Choice)
    requires x.pc.Saving? ==> x.user != []
    ensures var y := Handle(sh, x, c).1;
            && (y.user == [] || y.user == x.user || Registered(sh.users, y.user))
            && (y.pc.Saving? ==> y.user == x.user != [])
  {
    if x.pc.LoginVerify? && Accounts.Lookup(sh.users, x.pc.name).Some? {
      VerifiedName(sh.users, x.pc.name);
    }
  }

  lemma SessionKnown(s: Server, i: nat, c: Choice)
    requires NamesKnown(s) && i < |s.sessions|
    ensures var y := Next(s, Work(i, c)).sessions[i];
            y.user != [] || y.pc.Saving? ==> Registered(Next(s, Work(i, c)).shared.users, y.user)
  {
    var x := s.sessions[i];
    assert x in s.sessions;
    HandleUser(s.shared, x, c);
    var y := Handle(s.shared, x, c).1;
    if y.user != [] { StillRegistered(s, Work(i, c), y.user); }
  }

  lemma HandleSubmits(sh: Shared, x: Session, c: Choice)
    ensures var sh' := Handle(sh, x, c).0;
            (sh'.scores == sh.scores && sh'.submitted == sh.submitted)
            || (x.pc.Saving? && sh' == Saved(sh, Scores.Score(x.user, x.pc.score)))
  {
  }

  lemma SubmissionsKnown(s: Server, a: Action)
    requires NamesKnown(s)
    ensures Next(s, a).shared.scores == Joined(Scores.PrintedAll(Next(s, a).shared.submitted))
    ensures forall r :: r in Next(s, a).shared.submitted ==> Registered(s.shared.users, r.name) && Scores.IsInt(r.score)
  {
    if a.Work? && a.i < |s.sessions| {
      var x := s.sessions[a.i];
      assert x in s.sessions;
      HandleSubmits(s.shared, x, a.choice);
      if x.pc.Saving? { SavedOk(s.shared, Scores.Score(x.user, x.pc.score)); }
    }
  }

  lemma StepNamesKnown(s: Server, a: Action)
    requires NamesKnown(s)
    ensures NamesKnown(Next(s, a))
  {
    var g := StepUsers(s, a);
    SubmissionsKnown(s, a);
    forall r | r in Next(s, a).shared.submitted ensures Registered(Next(s, a).shared.users, r.name) {
      StillRegistered(s, a, r.name);
    }
    forall j | 0 <= j < |Next(s, a).sessions|
               && (Next(s, a).sessions[j].user != [] || Next(s, a).sessions[j].pc.Saving?)
      ensures Registered(Next(s, a).shared.users, Next(s, a).sessions[j].user)
    {
      if a.Work? && j == a.i {
        SessionKnown(s, j, a.choice);
      } else {
        assert j < |s.sessions|;
        assert s.sessions[j] in s.sessions;
        StillRegistered(s, a, s.sessions[j].user);
      }
    }
  }

  lemma {:induction false} RunNamesKnown(s: Server, acts: seq<Action>)
    requires Started(s) && s.shared.scores == [] && s.shared.submitted == []
    ensures NamesKnown(After(s, acts))
  {
    if acts == [] {
      assert Scores.PrintedAll([]) == [];
    } else {
      RunNamesKnown(s, acts[..|acts| - 1]);
      StepNamesKnown(After(s, acts[..|acts| - 1]), acts[|acts| - 1]);
    }
  }

  /** From an empty score file, loading returns exactly the first `max` submitted scores in order, whatever names
      clients registered; and every one of them was submitted under a registered name. */
  lemma SubmissionsLoad(s: Server, acts: seq<Action>, max: nat)
    requires Started(s) && s.shared.scores == [] && s.shared.submitted == []
    ensures var t := After(s, acts).shared;
            && Scores.Load(t.scores, max) == Take(t.submitted, max)
            && forall r :: r in t.submitted ==> Accounts.Lookup(t.users, r.name).Some?
  {
    RunNamesKnown(s, acts);
    var t := After(s, acts).shared;
    forall i | 0 <= i < |t.submitted| ensures Scores.WellFormed(t.submitted[i]) {
      assert t.submitted[i] in t.submitted;
      Accounts.FoundNamesAreClean(t.users, t.submitted[i].name);
    }
    Scores.LoadPrinted(t.submitted, max);
  }
}
