/** The end of the game: what `safe_game_cleanup` leaves behind when it returns, and when a call of it is safe. */
module GameCleanup {
  import opened Bytes
  import opened Game
  import opened GameLocks
  import opened GameProgress

  // ---------- no thread needs a mutex any more when they are destroyed ----------

  /** The joining loop has cleared the slots it has passed. */
  ghost predicate Swept(s: State) {
    && (s.main.pc.AtSweep? && s.main.pc.wp.Join? ==>
          forall j :: 0 <= j < s.main.pc.wp.i && j < |s.slots| ==> s.slots[j].tid.None?)
    && (s.main.pc == AtSweep(Ended) ==> forall j :: 0 <= j < |s.slots| ==> s.slots[j].tid.None?)
  }

  lemma MainKeepsSwept(c: Config, s: State, x: Choice, s': State)
    requires Inv(s) && Swept(s) && MainStep(c, s, x) == Some(s') && Flow(s.main.pc, s'.main.pc)
    ensures Swept(s')
  {
    if s.main.pc.AtSweep? {
      var wp := s.main.pc.wp;
      assert SweepStep(s, wp) == Some(s');
      if wp.Join? && wp.i < |s.slots| { assert SlotOk(s.main.pc, s.threads, s.slots[wp.i], wp.i); }
    }
  }

  lemma NextKeepsSwept(c: Config, s: State, s': State)
    requires Inv(s) && Swept(s) && Next(c, s, s')
    ensures Swept(s')
  {
    if MainNext(c, s, s') {
      var x :| MainStep(c, s, x) == Some(s');
      MainKeepsInv(c, s, x, s');
      MainKeepsSwept(c, s, x, s');
    } else if t: nat :| t < |s.threads| && WordNext(c, s, t, s') {
      var x :| WordStep(c, s, t, x) == Some(s');
      WordStepEffect(c, s, t, x, s');
    }
  }

  lemma StepKeepsSwept(c: Config, tr: seq<State>, k: nat)
    requires Run(c, tr) && 0 < k < |tr| && Swept(tr[k - 1])
    ensures Swept(tr[k])
  {
    RunInv(c, tr, k - 1);
    assert StepAt(c, tr, k);
    NextKeepsSwept(c, tr[k - 1], tr[k]);
  }

  lemma {:induction false} RunSwept(c: Config, tr: seq<State>, k: nat)
    requires Run(c, tr) && k < |tr|
    ensures Swept(tr[k])
  {
    if k == 0 {
      assert !tr[0].main.pc.AtSweep?;
    } else {
      RunSwept(c, tr, k - 1);
      StepKeepsSwept(c, tr, k);
    }
  }

  /** When `safe_game_cleanup` gets past its loop and destroys the mutexes, every thread that was ever started is past
      its last unlock: also those whose slot was given to another word and that nobody joined. */
  lemma MutexesUnusedAtEnd(c: Config, tr: seq<State>, k: nat, t: nat)
    requires Run(c, tr) && k < |tr| && tr[k].main.pc == AtSweep(Ended) && t < |tr[k].threads|
    ensures tr[k].threads[t].pc.NeverCreated? || PastLastUnlock(tr[k].threads[t].pc)
  {
    RunInv(c, tr, k);
    RunSwept(c, tr, k);
    assert ThreadOk(tr[k].main.pc, tr[k].slots, tr[k].threads[t], t);
  }

  // ---------- when a call is safe ----------

  /** The thread has started its exit section, or never ran. */
  predicate Leaving(pc: WordPc) {
    Unborn(pc) || (pc.AtExit? && !pc.ep.ExitWant?)
  }

  ghost predicate AllLeaving(s: State) {
    forall t :: 0 <= t < |s.threads| ==> Leaving(s.threads[t].pc)
  }

  ghost predicate AllGone(s: State) {
    forall t :: 0 <= t < |s.threads| ==> Unborn(s.threads[t].pc) || PastLastUnlock(s.threads[t].pc)
  }

  /** The call can still be brought to its end. */
  ghost predicate CanEnd(c: Config, s: State) {
    exists e :: Reaches(c, s, e) && e.main.pc == AtSweep(Ended)
  }

  /** In the call, after a start with all threads leaving. */
  ghost predicate InSafeCall(c: Config, s: State) {
    && PlayInv(c, s) && s.main.pc.AtSweep? && !s.main.pc.wp.FinalKey?
    && (if s.main.pc.wp.MarkWant? then AllLeaving(s) else AllGone(s))
  }

  /** Main gets words_mutex only when no thread is inside its exit section. */
  lemma MarkedAreGone(s: State)
    requires Inv(s) && AllLeaving(s) && s.locks.words == Nobody
    ensures AllGone(s)
  {
    forall t | 0 <= t < |s.threads| ensures Unborn(s.threads[t].pc) || PastLastUnlock(s.threads[t].pc) {
      assert Leaving(s.threads[t].pc) && WordLocks(t, s.threads[t].pc, s.locks);
    }
  }

  lemma MainKeepsSafeCall(c: Config, s: State, x: Choice, s': State)
    requires InSafeCall(c, s) && MainStep(c, s, x) == Some(s') && PlayInv(c, s')
    ensures InSafeCall(c, s')
  {
    assert SweepStep(s, s.main.pc.wp) == Some(s');
    if s.main.pc.wp.MarkWant? { MarkedAreGone(s); }
  }

  lemma ExitGoesOn(s: State, t: nat, ep: ExitPc, s': State)
    requires Shape(s) && t < |s.threads| && s.threads[t].pc == AtExit(ep) && ExitStep(s, t, ep) == Some(s')
    ensures |s'.threads| == |s.threads| && s'.threads[t].pc.AtExit? && !s'.threads[t].pc.ep.ExitWant?
    ensures Turns(s'.threads[t].pc) < Turns(s.threads[t].pc)
  {
  }

  lemma WordKeepsSafeCall(c: Config, s: State, t: nat, x: Choice, s': State)
    requires InSafeCall(c, s) && t < |s.threads| && WordStep(c, s, t, x) == Some(s') && PlayInv(c, s')
    ensures InSafeCall(c, s')
  {
    WordStepEffect(c, s, t, x, s');
    assert Leaving(s.threads[t].pc);
    ExitGoesOn(s, t, s.threads[t].pc.ep, s');
  }

  lemma NextKeepsSafeCall(c: Config, s: State, s': State)
    requires InSafeCall(c, s) && Next(c, s, s')
    ensures InSafeCall(c, s')
  {
    NextKeepsPlayInv(c, s, s');
    if MainNext(c, s, s') {
      var x :| MainStep(c, s, x) == Some(s');
      MainKeepsSafeCall(c, s, x, s');
    } else if t: nat :| t < |s.threads| && WordNext(c, s, t, s') {
      var x :| WordStep(c, s, t, x) == Some(s');
      WordKeepsSafeCall(c, s, t, x, s');
    }
  }

  lemma {:induction false} PathKeepsSafeCall(c: Config, tr: seq<State>, k: nat)
    requires Path(c, tr) && InSafeCall(c, tr[0]) && k < |tr|
    ensures InSafeCall(c, tr[k])
  {
    if k > 0 {
      PathKeepsSafeCall(c, tr, k - 1);
      assert StepAt(c, tr, k);
      NextKeepsSafeCall(c, tr[k - 1], tr[k]);
    }
  }

  /** How many steps a thread that holds words_mutex takes to give it back. */
  function Turns(pc: WordPc): nat {
    match pc
    case AtPoll(_) => 1
    case AtDrop(dp) =>
      (match dp case DropWant => 7 case DropIn => 6 case FallHashWant => 5 case FallHashIn => 4
                case FallStateWant => 3 case FallStateIn => 2 case DropOut => 1)
    case AtExit(ep) =>
      (match ep case ExitWant => 6 case ExitIn => 5 case ExitHashWant => 4 case ExitHashIn => 3 case ExitOut => 2
                case Returning => 1 case Done => 0)
    case _ => 0
  }

  /** With words_mutex held by thread u, nobody else holds the table's mutex. */
  lemma HashBelongsToHolder(s: State, u: nat)
    requires Inv(s) && s.locks.words == WordThread(u)
    ensures u < |s.threads| && (s.locks.hash == Nobody || s.locks.hash == WordThread(u))
  {
    if s.locks.hash.WordThread? {
      assert WordLocks(s.locks.hash.id, s.threads[s.locks.hash.id].pc, s.locks);
    }
  }

  lemma StepOf(c: Config, s: State, t: nat) returns (s': State)
    requires PlayInv(c, s) && t < |s.threads| && WordStep(c, s, t, ANY).Some?
    ensures WordStep(c, s, t, ANY) == Some(s') && Next(c, s, s') && PlayInv(c, s') && Reaches(c, s, s')
    ensures WordEffect(s, t, s')
  {
    s' := WordStep(c, s, t, ANY).value;
    assert WordNext(c, s, t, s');
    NextKeepsPlayInv(c, s, s');
    WordStepEffect(c, s, t, ANY, s');
    ReachesSelf(c, s);
    ReachesStep(c, s, s, s');
  }

  lemma MainStepOf(c: Config, s: State) returns (s': State)
    requires PlayInv(c, s) && MainStep(c, s, ANY).Some?
    ensures MainStep(c, s, ANY) == Some(s') && Next(c, s, s') && PlayInv(c, s') && Reaches(c, s, s')
  {
    s' := MainStep(c, s, ANY).value;
    assert MainNext(c, s, s');
    NextKeepsPlayInv(c, s, s');
    ReachesSelf(c, s);
    ReachesStep(c, s, s, s');
  }

  /** From any moment of a safe call its end can be reached. */
  lemma {:induction false} SafeCallEnds(c: Config, s: State)
    requires InSafeCall(c, s)
    ensures CanEnd(c, s)
    decreases if s.main.pc.wp.MarkWant? then 3 else if s.main.pc.wp.MarkIn? then 2
              else if s.main.pc.wp.JoinWant? then 1 else 0,
              if s.locks.words.WordThread? && s.locks.words.id < |s.threads|
              then Turns(s.threads[s.locks.words.id].pc) else 0
  {
    var wp := s.main.pc.wp;
    if wp.Join? || wp.Ended? {
      var e := SafeEnds(c, s);
    } else {
      var s': State;
      if wp.MarkWant? && s.locks.words != Nobody {
        s' := HolderLeaves(c, s);
      } else {
        if wp.JoinWant? { WordsIsFree(s); }
        s' := MainStepOf(c, s);
        assert SweepStep(s, wp) == Some(s');
      }
      NextKeepsSafeCall(c, s, s');
      SafeCallEnds(c, s');
      var e :| Reaches(c, s', e) && e.main.pc == AtSweep(Ended);
      ReachesTrans(c, s, s', e);
    }
  }

  lemma WordsIsFree(s: State)
    requires Inv(s) && AllGone(s) && !MainHolds(s.main.pc, WordsLock)
    ensures s.locks.words == Nobody
  {
    assert s.locks.words.WordThread? ==> WordLocks(s.locks.words.id, s.threads[s.locks.words.id].pc, s.locks);
  }

  /** The thread inside its exit section moves on. */
  lemma HolderLeaves(c: Config, s: State) returns (s': State)
    requires InSafeCall(c, s) && s.main.pc == AtSweep(MarkWant) && s.locks.words != Nobody
    ensures Next(c, s, s') && Reaches(c, s, s') && s'.main == s.main
    ensures s.locks.words.WordThread? && s.locks.words.id < |s.threads| == |s'.threads|
    ensures Turns(s'.threads[s.locks.words.id].pc) < Turns(s.threads[s.locks.words.id].pc)
    ensures s'.locks.words == s.locks.words || s'.locks.words == Nobody
    ensures s.threads[s.locks.words.id].pc.AtExit?
  {
    var u := s.locks.words.id;
    HashBelongsToHolder(s, u);
    assert WordLocks(u, s.threads[u].pc, s.locks) && Leaving(s.threads[u].pc);
    WordCanStep(c, s, u);
    s' := StepOf(c, s, u);
    ExitGoesOn(s, u, s.threads[u].pc.ep, s');
    ExitLocks(s, u, s.threads[u].pc.ep, s');
  }

  // ---------- one thread that is not leaving can be waited for for ever ----------

  predicate Lags(s: State, t: nat) {
    t < |s.threads| && !Leaving(s.threads[t].pc)
  }

  lemma PollLags(s: State, u: nat, pp: PollPc, s': State)
    requires Shape(s) && u < |s.threads| && s.threads[u].pc == AtPoll(pp) && PollStep(s, u, pp, ANY) == Some(s')
    ensures Lags(s', u)
  {
  }

  lemma DropLags(c: Config, s: State, u: nat, dp: DropPc, s': State)
    requires Shape(s) && u < |s.threads| && s.threads[u].pc == AtDrop(dp) && DropStep(c, s, u, dp) == Some(s')
    ensures Lags(s', u)
    ensures dp != DropOut ==> Turns(s'.threads[u].pc) < Turns(AtDrop(dp))
  {
  }

  /** Whoever moves while it holds a mutex does not take thread t into its exit section. */
  lemma LagStays(c: Config, s: State, u: nat, s': State, t: nat)
    requires Shape(s) && u < |s.threads| && WordStep(c, s, u, ANY) == Some(s') && WordEffect(s, u, s')
    requires Lags(s, t) && !HoldsNothing(s.threads[u].pc)
    ensures Lags(s', t)
  {
    if u == t {
      match s.threads[t].pc
      case AtPoll(pp) => PollLags(s, t, pp, s');
      case AtDrop(dp) => DropLags(c, s, t, dp, s');
      case _ =>
    }
  }

  /** The state mutex, held by another thread than u, is given back in one step that leaves u and its mutexes alone. */
  lemma StateReleased(c: Config, s: State, u: nat, t: nat) returns (s': State)
    requires PlayInv(c, s) && s.main.pc == AtSweep(MarkWant) && s.locks.words == WordThread(u) && Lags(s, t)
    requires s.locks.state != Nobody && s.locks.state != WordThread(u)
    ensures Reaches(c, s, s') && PlayInv(c, s') && s'.main == s.main && Lags(s', t)
    ensures u < |s.threads| == |s'.threads| && s'.threads[u] == s.threads[u]
    ensures s'.locks == s.locks.(state := Nobody)
  {
    var v := s.locks.state.id;
    assert WordLocks(v, s.threads[v].pc, s.locks) && WordLocks(u, s.threads[u].pc, s.locks);
    WordCanStep(c, s, v);
    s' := StepOf(c, s, v);
    LagStays(c, s, v, s', t);
    StateGivenBack(s, v, s.threads[v].pc.pp, ANY, s');
  }

  /** One step of the holder of words_mutex: nearer to giving it back, or done. */
  lemma HolderEffect(c: Config, s: State, u: nat, s': State)
    requires Shape(s) && u < |s.threads| && WordStep(c, s, u, ANY) == Some(s') && WordEffect(s, u, s')
    requires WordLocks(u, s.threads[u].pc, s.locks) && WordHolds(s.threads[u].pc, WordsLock)
    ensures WordLocks(u, s'.threads[u].pc, s'.locks) && Touches(s.locks, s'.locks, WordThread(u))
    ensures Turns(s'.threads[u].pc) < Turns(s.threads[u].pc) || !WordHolds(s'.threads[u].pc, WordsLock)
  {
    match s.threads[u].pc
    case AtPoll(pp) => PollLocks(s, u, pp, ANY, s'); PollLetsGo(s, u, s');
    case AtDrop(dp) => DropLocks(c, s, u, dp, s'); DropLags(c, s, u, dp, s'); DropLetsGo(c, s, u, dp, s');
    case AtExit(ep) => ExitLocks(s, u, ep, s'); ExitGoesOn(s, u, ep, s');
    case _ =>
  }

  lemma PollLetsGo(s: State, u: nat, s': State)
    requires Shape(s) && u < |s.threads| && s.threads[u].pc == AtPoll(PollIn) && PollStep(s, u, PollIn, ANY) == Some(s')
    ensures u < |s'.threads| && !WordHolds(s'.threads[u].pc, WordsLock)
  {
  }

  lemma DropLetsGo(c: Config, s: State, u: nat, dp: DropPc, s': State)
    requires Shape(s) && u < |s.threads| && s.threads[u].pc == AtDrop(dp) && DropStep(c, s, u, dp) == Some(s')
    ensures u < |s'.threads| && (dp == DropOut ==> !WordHolds(s'.threads[u].pc, WordsLock))
  {
  }

  /** The holder of words_mutex moves towards giving it back. */
  lemma HolderMoves(c: Config, s: State, u: nat, t: nat) returns (s': State)
    requires PlayInv(c, s) && s.main.pc == AtSweep(MarkWant) && s.locks.words == WordThread(u) && Lags(s, t)
    requires s.locks.state == Nobody || s.locks.state == WordThread(u)
    ensures Reaches(c, s, s') && PlayInv(c, s') && s'.main == s.main && Lags(s', t)
    ensures u < |s.threads| == |s'.threads|
    ensures s'.locks.words == Nobody
            || (s'.locks.words == WordThread(u) && Turns(s'.threads[u].pc) < Turns(s.threads[u].pc)
                && (s'.locks.state == Nobody || s'.locks.state == WordThread(u)))
  {
    HashBelongsToHolder(s, u);
    assert WordLocks(u, s.threads[u].pc, s.locks);
    WordCanStep(c, s, u);
    s' := StepOf(c, s, u);
    LagStays(c, s, u, s', t);
    HolderEffect(c, s, u, s');
  }

  function HolderTurns(s: State): nat {
    if s.locks.words.WordThread? && s.locks.words.id < |s.threads| then Turns(s.threads[s.locks.words.id].pc) + 1 else 0
  }

  /** words_mutex becomes free while main waits for it and thread t stays outside its exit section. */
  lemma {:induction false} WordsReleased(c: Config, s: State, t: nat) returns (m: State)
    requires PlayInv(c, s) && s.main.pc == AtSweep(MarkWant) && Lags(s, t)
    ensures Reaches(c, s, m) && PlayInv(c, m) && m.main == s.main && Lags(m, t) && m.locks.words == Nobody
    decreases HolderTurns(s), s.locks.state != Nobody && s.locks.state != s.locks.words
  {
    if s.locks.words == Nobody {
      m := s;
      ReachesSelf(c, s);
    } else {
      var u := s.locks.words.id;
      var s': State;
      if s.locks.state != Nobody && s.locks.state != WordThread(u) {
        s' := StateReleased(c, s, u, t);
      } else {
        s' := HolderMoves(c, s, u, t);
      }
      m := WordsReleased(c, s', t);
      ReachesTrans(c, s, s', m);
    }
  }

  /** With words_mutex free main can mark all slots and enter the joining loop before any thread moves. */
  lemma MarksAndJoins(c: Config, s: State) returns (m: State)
    requires PlayInv(c, s) && s.main.pc == AtSweep(MarkWant) && s.locks.words == Nobody
    ensures Reaches(c, s, m) && PlayInv(c, m) && m.main.pc == AtSweep(Join(0)) && m.threads == s.threads
  {
    var s1 := MainStepOf(c, s);
    var s2 := MainStepOf(c, s1);
    ReachesTrans(c, s, s1, s2);
    var s3 := MainStepOf(c, s2);
    ReachesTrans(c, s, s2, s3);
    m := s3;
  }

  lemma LaggardHangs(c: Config, s: State, t: nat) returns (m: State)
    requires PlayInv(c, s) && s.main.pc == AtSweep(MarkWant) && Lags(s, t)
    ensures Reaches(c, s, m) && !CanEnd(c, m)
  {
    var s1 := WordsReleased(c, s, t);
    m := MarksAndJoins(c, s1);
    ReachesTrans(c, s, s1, m);
    var i := m.threads[t].slot;
    assert ThreadOk(m.main.pc, m.slots, m.threads[t], t);
    assert Stuck(c, m, i, t);
    forall e | Reaches(c, m, e) ensures e.main.pc != AtSweep(Ended) { StuckNeverEnds(c, m, e, i, t); }
  }

  /** At the moment of the call: `safe_game_cleanup` can always still be brought to its end, whatever the scheduler
      does, if and only if every thread that is still running has already entered its exit section. */
  lemma CallIsSafeIff(c: Config, s: State)
    requires PlayInv(c, s) && s.main.pc == AtSweep(MarkWant)
    ensures (forall m :: Reaches(c, s, m) ==> CanEnd(c, m)) <==> AllLeaving(s)
  {
    if AllLeaving(s) {
      forall m | Reaches(c, s, m) ensures CanEnd(c, m) {
        var tr :| Path(c, tr) && tr[0] == s && tr[|tr| - 1] == m;
        PathKeepsSafeCall(c, tr, |tr| - 1);
        SafeCallEnds(c, m);
      }
    } else {
      var t :| 0 <= t < |s.threads| && !Leaving(s.threads[t].pc);
      var m := LaggardHangs(c, s, t);
    }
  }
}
