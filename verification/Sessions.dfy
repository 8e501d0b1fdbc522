/** The server's handler threads: any number of sessions over one login table, one users file and one score file.
    Each step is one critical section of the source, or the local work between two of them; sessions interleave
    freely. */
module Sessions {
  import opened Bytes
  import opened Lines
  import opened LoginTable
  import Accounts
  import Scores

  type Int32 = n: int | Scores.IsInt(n) witness 0

  datatype Request =
    | Register(name: CStr, password: CStr)
    | Login(name: CStr, password: CStr)
    | Submit(score: Int32)
    | Logout
    | Query // leaderboard, word list and unknown messages: they touch nothing a session shares for writing

  /** Where a handler stands. */
  datatype Pc =
    | Ready
    | LoginCheck(name: CStr, password: CStr) // before is_user_already_logged_in
    | LoginVerify(name: CStr, password: CStr) // the check has passed; before login_user_impl
    | LoginAdd // verified, current_user is set; before add_logged_in_user
    | RegisterFind(name: CStr, password: CStr)
    | RegisterAdd(name: CStr, password: CStr)
    | Saving(score: Int32)
    | LogoutRemove
    | Respond
    | Closing
    | Closed

  datatype Session = Session(pc: Pc, user: Bytes)

  /** `submitted` is history: the scores written so far, in order. */
  datatype Shared = Shared(table: Entries, users: Bytes, scores: Bytes, submitted: seq<Scores.Score>)

  datatype Server = Server(shared: Shared, sessions: seq<Session>)

  /** What the environment decides: the next request (None when the connection fails) and whether I/O succeeds: for an
      append, whether its bytes reach the file, whatever is then reported. */
  datatype Choice = Choice(request: Option<Request>, io: bool)

  datatype Action = Accept | Work(i: nat, choice: Choice)

  // ---------- one handler ----------

  function Dispatch(x: Session, r: Request): Session {
    match r
    case Register(u, p) => x.(pc := if Accounts.Storable(u, p) then RegisterFind(u, p) else Respond)
    case Login(u, p) => x.(pc := LoginCheck(u, p))
    case Submit(n) => x.(pc := if x.user == [] then Respond else Saving(n))
    case Logout => x.(pc := if x.user == [] then Respond else LogoutRemove)
    case Query => x.(pc := Respond)
  }

  /** `handle_client`, from one program point to the next. */
  function Handle(sh: Shared, x: Session, c: Choice): (Shared, Session) {
    match x.pc
    case Ready => (sh, if c.request.None? then x.(pc := Closing) else Dispatch(x, c.request.value))
    case LoginCheck(u, p) => (sh, x.(pc := if Some(u) in sh.table then Respond else LoginVerify(u, p)))
    case LoginVerify(u, p) =>
      if c.io && Accounts.Lookup(sh.users, u) == Some(p)
      then (sh, Session(LoginAdd, Truncated(u, MAX_ID_LEN - 1)))
      else (sh, Session(Respond, []))
    case LoginAdd =>
      if None in sh.table
      then (sh.(table := Replaced(sh.table, None, Some(x.user))), x.(pc := Respond))
      else (sh, Session(Respond, []))
    case RegisterFind(u, p) =>
      (sh, x.(pc := if c.io && Accounts.Lookup(sh.users, u).None? then RegisterAdd(u, p) else Respond))
    case RegisterAdd(u, p) =>
      (if c.io then sh.(users := sh.users + Accounts.Record(u, p)) else sh, x.(pc := Respond))
    case Saving(n) => (if c.io then Saved(sh, Scores.Score(x.user, n)) else sh, x.(pc := Respond))
    case LogoutRemove => (sh.(table := Replaced(sh.table, Some(x.user), None)), Session(Respond, []))
    case Respond => (sh, x.(pc := if c.io then Ready else Closing))
    case Closing =>
      (if x.user == [] then sh else sh.(table := Replaced(sh.table, Some(x.user), None)), x.(pc := Closed))
    case Closed => (sh, x)
  }

  function Saved(sh: Shared, r: Scores.Score): Shared {
    sh.(scores := sh.scores + Scores.Printed(r) + ['\n'], submitted := sh.submitted + [r])
  }

  // ---------- the server ----------

  function Next(s: Server, a: Action): Server {
    match a
    case Accept => s.(sessions := s.sessions + [Session(Ready, [])])
    case Work(i, c) =>
      if i >= |s.sessions| then s
      else
        var (sh, x) := Handle(s.shared, s.sessions[i], c);
        Server(sh, s.sessions[i := x])
  }

  /** The state after the actions, in order. */
  function After(s: Server, acts: seq<Action>): Server {
    if acts == [] then s else Next(After(s, acts[..|acts| - 1]), acts[|acts| - 1])
  }

  /** A server just started: an empty table, no sessions, a users file of whole lines. */
  predicate Started(s: Server) {
    && |s.shared.table| == MAX_LOGGED_IN_USERS
    && (forall i :: 0 <= i < |s.shared.table| ==> s.shared.table[i] == None)
    && s.sessions == []
    && Terminated(s.shared.users)
  }

  // ---------- entries and holders ----------

  function EntriesOf(s: Server, u: Bytes): nat {
    multiset(s.shared.table)[Some(u)]
  }

  /** The name a session has an entry for: after the add, before the matching remove. */
  function Holder(x: Session): Option<Bytes> {
    if x.user == [] || x.pc.LoginAdd? || x.pc.Closed? then None else Some(x.user)
  }

  function Held(xs: seq<Session>): (h: seq<Option<Bytes>>)
    ensures |h| == |xs|
  {
    seq(|xs|, i requires 0 <= i < |xs| => Holder(xs[i]))
  }

  function HoldersOf(s: Server, u: Bytes): nat {
    multiset(Held(s.sessions))[Some(u)]
  }

  /** The step leaves an entry named u that no session will remove. For a nonempty name: a session logged in as u has
      passed the check of another login, and current_user is overwritten, or cleared if the password is wrong. For the
      empty name: it is added, and a session whose current_user is empty counts as not logged in. */
  predicate Strands(s: Server, a: Action, u: Bytes) {
    && a.Work? && a.i < |s.sessions| && s.sessions[a.i].user == u
    && if u != [] then s.sessions[a.i].pc.LoginVerify? else s.sessions[a.i].pc.LoginAdd? && None in s.shared.table
  }

  function Stranded(s: Server, acts: seq<Action>, u: Bytes): nat {
    if acts == [] then 0
    else
      var rest := acts[..|acts| - 1];
      Stranded(s, rest, u) + One(Strands(After(s, rest), acts[|acts| - 1], u))
  }

  // ---------- conservation ----------

  lemma HeldUpdate(xs: seq<Session>, i: nat, x: Session)
    requires i < |xs|
    ensures multiset(Held(xs[i := x])) == multiset(Held(xs)) - multiset{Holder(xs[i])} + multiset{Holder(x)}
  {
    assert Held(xs[i := x]) == Held(xs)[i := Holder(x)];
  }

  lemma HeldMore(xs: seq<Session>, x: Session)
    ensures multiset(Held(xs + [x])) == multiset(Held(xs)) + multiset{Holder(x)}
  {
    assert Held(xs + [x]) == Held(xs) + [Holder(x)];
  }

  /** Between two states of one session: an entry for u came or went exactly when a holder did. */
  ghost predicate Balanced(t: Entries, x: Session, t': Entries, y: Session, u: Bytes, surplus: nat) {
    multiset(t')[Some(u)] + One(Holder(x) == Some(u)) == multiset(t)[Some(u)] + One(Holder(y) == Some(u)) + surplus
  }

  /** What Strands says, for one handler. */
  predicate HandleStrands(sh: Shared, x: Session, u: Bytes) {
    x.user == u && if u != [] then x.pc.LoginVerify? else x.pc.LoginAdd? && None in sh.table
  }

  /** Logging out was allowed because somebody was logged in. */
  predicate LogoutOk(x: Session) {
    x.pc.LogoutRemove? ==> x.user != []
  }

  lemma AddBalances(sh: Shared, x: Session, c: Choice, u: Bytes)
    requires x.pc.LoginAdd?
    ensures var (sh', y) := Handle(sh, x, c);
            Balanced(sh.table, x, sh'.table, y, u, One(HandleStrands(sh, x, u)))
  {
    ReplacedCount(sh.table, None, Some(x.user), Some(u));
  }

  lemma RemoveBalances(sh: Shared, x: Session, c: Choice, u: Bytes)
    requires x.pc.LogoutRemove? || x.pc.Closing?
    requires LogoutOk(x)
    requires Holder(x) == Some(u) ==> Some(u) in sh.table
    ensures var (sh', y) := Handle(sh, x, c); Balanced(sh.table, x, sh'.table, y, u, 0)
  {
    ReplacedCount(sh.table, Some(x.user), None, Some(u));
  }

  lemma HandleLogoutOk(sh: Shared, x: Session, c: Choice)
    ensures LogoutOk(Handle(sh, x, c).1)
  {
  }

  /** One handler step moves an entry and its holder together, unless it strands the entry. */
  lemma HandleConserves(sh: Shared, x: Session, c: Choice, u: Bytes)
    requires LogoutOk(x) && (Holder(x) == Some(u) ==> Some(u) in sh.table)
    ensures var (sh', y) := Handle(sh, x, c);
            Balanced(sh.table, x, sh'.table, y, u, One(HandleStrands(sh, x, u)))
  {
    if x.pc.LoginAdd? {
      AddBalances(sh, x, c, u);
    } else if x.pc.LogoutRemove? || x.pc.Closing? {
      RemoveBalances(sh, x, c, u);
    } else {
      assert Handle(sh, x, c).0.table == sh.table;
    }
  }

  lemma BalancedCounts(s: Server, i: nat, sh: Shared, y: Session, u: Bytes, surplus: nat)
    requires i < |s.sessions| && Balanced(s.shared.table, s.sessions[i], sh.table, y, u, surplus)
    ensures EntriesOf(Server(sh, s.sessions[i := y]), u) + HoldersOf(s, u)
            == EntriesOf(s, u) + HoldersOf(Server(sh, s.sessions[i := y]), u) + surplus
  {
    HeldUpdate(s.sessions, i, y);
    assert Holder(s.sessions[i]) == Held(s.sessions)[i];
  }

  ghost predicate LogoutsOk(s: Server) {
    forall i :: 0 <= i < |s.sessions| ==> LogoutOk(s.sessions[i])
  }

  lemma StepLogoutsOk(s: Server, a: Action)
    requires LogoutsOk(s)
    ensures LogoutsOk(Next(s, a))
  {
    if a.Work? && a.i < |s.sessions| { HandleLogoutOk(s.shared, s.sessions[a.i], a.choice); }
  }

  /** One step changes the entries for u and the holders of u by the same amount, except for an entry it strands. */
  lemma StepConserves(s: Server, a: Action, u: Bytes)
    requires LogoutsOk(s) && EntriesOf(s, u) >= HoldersOf(s, u)
    ensures EntriesOf(Next(s, a), u) + HoldersOf(s, u)
            == EntriesOf(s, u) + HoldersOf(Next(s, a), u) + One(Strands(s, a, u))
  {
    match a
    case Accept => HeldMore(s.sessions, Session(Ready, []));
    case Work(i, c) =>
      if i < |s.sessions| {
        assert Holder(s.sessions[i]) == Held(s.sessions)[i] && LogoutOk(s.sessions[i]);
        HandleConserves(s.shared, s.sessions[i], c, u);
        var (sh, y) := Handle(s.shared, s.sessions[i], c);
        BalancedCounts(s, i, sh, y, u, One(Strands(s, a, u)));
      }
  }

  /** In every run, for every name: its entries are one for each session logged in under it, and the stranded ones. */
  lemma {:induction false} EntriesAccounted(s: Server, acts: seq<Action>, u: Bytes)
    requires Started(s)
    ensures LogoutsOk(After(s, acts))
    ensures EntriesOf(After(s, acts), u) == HoldersOf(After(s, acts), u) + Stranded(s, acts, u)
  {
    if acts != [] {
      EntriesAccounted(s, acts[..|acts| - 1], u);
      StepLogoutsOk(After(s, acts[..|acts| - 1]), acts[|acts| - 1]);
      StepConserves(After(s, acts[..|acts| - 1]), acts[|acts| - 1], u);
    } else {
      assert Held(s.sessions) == [];
      assert Some(u) !in s.shared.table;
    }
  }
}
