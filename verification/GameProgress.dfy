/** Runs, freedom from deadlock while the game is played, and the exact condition under which
    `safe_game_cleanup` returns. */
module GameProgress {
  import opened Bytes
  import opened Game
  import opened GameLocks

  /** A spawn only starts with a word list to pick from. */
  predicate DictOk(c: Config, s: State) {
    s.main.pc.AtPick? ==> |c.dict| > 0
  }

  ghost predicate PlayInv(c: Config, s: State) {
    Inv(s) && DictOk(c, s)
  }

  lemma NextKeepsPlayInv(c: Config, s: State, s': State)
    requires PlayInv(c, s) && Next(c, s, s')
    ensures PlayInv(c, s')
  {
    if MainNext(c, s, s') {
      var x :| MainStep(c, s, x) == Some(s');
      MainKeepsInv(c, s, x, s');
      if s.main.pc.AtTimer? { TimerNeedsDict(c, s, s.main.pc.tp, x, s'); }
    } else if t: nat :| t < |s.threads| && WordNext(c, s, t, s') {
      var x :| WordStep(c, s, t, x) == Some(s');
      WordKeepsInv(c, s, t, x, s');
      WordStepEffect(c, s, t, x, s');
    }
  }

  lemma TimerNeedsDict(c: Config, s: State, tp: TimerPc, x: Choice, s': State)
    requires s.main.pc == AtTimer(tp) && TimerStep(c, s, tp, x) == Some(s')
    ensures DictOk(c, s')
  {
  }

  // ---------- runs ----------

  ghost predicate Run(c: Config, tr: seq<State>) {
    Path(c, tr) && tr[0] == InitialState()
  }

  lemma {:induction false} RunInv(c: Config, tr: seq<State>, k: nat)
    requires Run(c, tr) && k < |tr|
    ensures PlayInv(c, tr[k])
  {
    if k == 0 {
      InitInv();
    } else {
      RunInv(c, tr, k - 1);
      assert StepAt(c, tr, k);
      NextKeepsPlayInv(c, tr[k - 1], tr[k]);
    }
  }

  ghost predicate Reaches(c: Config, s: State, s': State) {
    exists tr :: Path(c, tr) && tr[0] == s && tr[|tr| - 1] == s'
  }

  lemma ReachesSelf(c: Config, s: State)
    requires Shape(s)
    ensures Reaches(c, s, s)
  {
    assert Path(c, [s]);
  }

  lemma ReachesStep(c: Config, s: State, m: State, s': State)
    requires Reaches(c, s, m) && Shape(m) && Next(c, m, s') && Shape(s')
    ensures Reaches(c, s, s')
  {
    var tr :| Path(c, tr) && tr[0] == s && tr[|tr| - 1] == m;
    forall k | 0 < k < |tr + [s']| ensures StepAt(c, tr + [s'], k) {
      if k < |tr| { assert StepAt(c, tr, k); }
    }
    assert Path(c, tr + [s']);
    assert (tr + [s'])[|tr|] == s';
  }

  /** Two paths, the second from where the first ends, are one path. */
  lemma JoinedStep(c: Config, tr: seq<State>, tq: seq<State>, k: nat)
    requires Path(c, tr) && Path(c, tq) && tq[0] == tr[|tr| - 1] && 0 < k < |tr + tq[1..]|
    ensures Shape((tr + tq[1..])[k - 1]) && Shape((tr + tq[1..])[k]) && StepAt(c, tr + tq[1..], k)
  {
    var all := tr + tq[1..];
    if k < |tr| {
      assert all[k - 1] == tr[k - 1] && all[k] == tr[k] && StepAt(c, tr, k);
    } else {
      var j := k - |tr| + 1;
      assert all[k - 1] == tq[j - 1] && all[k] == tq[j] && StepAt(c, tq, j);
    }
  }

  lemma JoinedPath(c: Config, tr: seq<State>, tq: seq<State>)
    requires Path(c, tr) && Path(c, tq) && tq[0] == tr[|tr| - 1]
    ensures Path(c, tr + tq[1..])
  {
    var all := tr + tq[1..];
    assert all[0] == tr[0];
    forall k | 0 <= k < |all| ensures Shape(all[k]) {
      if k > 0 { JoinedStep(c, tr, tq, k); }
    }
    forall k | 0 < k < |all| ensures StepAt(c, all, k) {
      JoinedStep(c, tr, tq, k);
    }
  }

  lemma ReachesTrans(c: Config, s: State, m: State, s': State)
    requires Reaches(c, s, m) && Reaches(c, m, s')
    ensures Reaches(c, s, s')
  {
    var tr :| Path(c, tr) && tr[0] == s && tr[|tr| - 1] == m;
    var tq :| Path(c, tq) && tq[0] == m && tq[|tq| - 1] == s';
    JoinedPath(c, tr, tq);
    var all := tr + tq[1..];
    assert all[0] == s && all[|all| - 1] == s';
  }

  lemma {:induction false} ReachesKeepsPlayInv(c: Config, tr: seq<State>, k: nat)
    requires Path(c, tr) && PlayInv(c, tr[0]) && k < |tr|
    ensures PlayInv(c, tr[k])
  {
    if k > 0 {
      ReachesKeepsPlayInv(c, tr, k - 1);
      assert StepAt(c, tr, k);
      NextKeepsPlayInv(c, tr[k - 1], tr[k]);
    }
  }

  // ---------- the lock order ----------

  lemma WordLockOrder(pc: WordPc, held: Lock)
    requires WordWants(pc).Some? && WordHolds(pc, held)
    ensures Rank(held) < Rank(WordWants(pc).value)
  {
  }

  lemma MainLockOrder(pc: MainPc, held: Lock)
    requires MainWants(pc).Some? && MainHolds(pc, held)
    ensures Rank(held) < Rank(MainWants(pc).value)
  {
  }

  function Owner(k: Locks, l: Lock): Holder {
    match l
    case ScreenLock => k.screen
    case WordsLock => k.words
    case StateLock => k.state
    case HashLock => k.hash
  }

  lemma WordNextKeeps(c: Config, s: State, t: nat, s': State)
    requires PlayInv(c, s) && t < |s.threads| && WordStep(c, s, t, ANY) == Some(s')
    ensures Next(c, s, s') && PlayInv(c, s')
  {
    assert WordNext(c, s, t, s');
    NextKeepsPlayInv(c, s, s');
  }

  const ANY := Choice(ERR, false, 0, Normal, true, true, false)

  ghost predicate SomeThreadSteps(c: Config, s: State)
    requires Shape(s)
  {
    MainStep(c, s, ANY).Some? || (exists t: nat :: t < |s.threads| && WordStep(c, s, t, ANY).Some?)
  }

  /** A word thread whose mutex is free (or that needs none) can step. */
  lemma WordCanStep(c: Config, s: State, t: nat)
    requires Shape(s) && t < |s.threads| && !Unborn(s.threads[t].pc) && s.threads[t].pc != AtExit(Done)
    requires WordWants(s.threads[t].pc).Some? ==> Owner(s.locks, WordWants(s.threads[t].pc).value) == Nobody
    ensures WordStep(c, s, t, ANY).Some?
  {
  }

  /** Main is in a joining loop at the slot of an unfinished thread. */
  predicate MainJoins(s: State)
    requires Shape(s)
  {
    || (s.main.pc.AtReap? && s.main.pc.rp.Reap? && s.main.pc.rp.i < |s.slots| && Joined(s, s.main.pc.rp.i).None?)
    || (s.main.pc.AtSweep? && s.main.pc.wp.Join? && s.main.pc.wp.i < |s.slots| && Joined(s, s.main.pc.wp.i).None?)
  }

  lemma MainCanStep(c: Config, s: State)
    requires Shape(s) && DictOk(c, s) && s.main.pc != AtSweep(Ended) && !MainJoins(s)
    requires MainWants(s.main.pc).Some? ==> Owner(s.locks, MainWants(s.main.pc).value) == Nobody
    ensures MainStep(c, s, ANY).Some?
  {
  }

  /** Every remaining word thread is past its last unlock. */
  ghost predicate AllPast(s: State)
    requires Shape(s)
  {
    forall i :: 0 <= i < |s.slots| && s.slots[i].tid.Some? ==> PastLastUnlock(s.threads[s.slots[i].tid.value].pc)
  }

  /** A thread waited for by `cleanup_finished_threads` only has to return. */
  lemma JoinedIsPast(s: State)
    requires Inv(s) && MainJoins(s)
    requires s.main.pc.AtSweep? ==> AllPast(s)
    ensures var i := if s.main.pc.AtReap? then s.main.pc.rp.i else s.main.pc.wp.i;
            s.slots[i].tid.Some? && s.threads[s.slots[i].tid.value].pc == AtExit(Returning)
  {
    var i := if s.main.pc.AtReap? then s.main.pc.rp.i else s.main.pc.wp.i;
    assert SlotOk(s.main.pc, s.threads, s.slots[i], i);
    assert WordLocks(s.slots[i].tid.value, s.threads[s.slots[i].tid.value].pc, s.locks);
  }

  /** The holder of one of the innermost mutexes is never blocked. */
  lemma InnerHolderSteps(c: Config, s: State, l: Lock)
    requires PlayInv(c, s) && s.main.pc != AtSweep(Ended)
    requires l == StateLock || l == HashLock
    requires Owner(s.locks, l) != Nobody
    ensures SomeThreadSteps(c, s)
  {
    match Owner(s.locks, l) {
      case MainThread =>
        if MainWants(s.main.pc).Some? { MainLockOrder(s.main.pc, l); }
        MainCanStep(c, s);
      case WordThread(t) =>
        assert WordLocks(t, s.threads[t].pc, s.locks);
        if WordWants(s.threads[t].pc).Some? { WordLockOrder(s.threads[t].pc, l); }
        WordCanStep(c, s, t);
    }
  }

  /** With the inner mutexes free, the holder of words_mutex steps, or the thread it joins does. */
  lemma WordsHolderSteps(c: Config, s: State)
    requires PlayInv(c, s) && s.main.pc != AtSweep(Ended)
    requires s.main.pc.AtSweep? && s.main.pc.wp.Join? ==> AllPast(s)
    requires s.locks.state == Nobody && s.locks.hash == Nobody && s.locks.words != Nobody
    ensures SomeThreadSteps(c, s)
  {
    match s.locks.words {
      case MainThread =>
        if MainJoins(s) {
          JoinedIsPast(s);
          var i := if s.main.pc.AtReap? then s.main.pc.rp.i else s.main.pc.wp.i;
          WordCanStep(c, s, s.slots[i].tid.value);
        } else {
          if MainWants(s.main.pc).Some? { MainLockOrder(s.main.pc, WordsLock); }
          MainCanStep(c, s);
        }
      case WordThread(t) =>
        assert WordLocks(t, s.threads[t].pc, s.locks);
        if WordWants(s.threads[t].pc).Some? { WordLockOrder(s.threads[t].pc, WordsLock); }
        WordCanStep(c, s, t);
    }
  }

  /** No deadlock: until the end, some thread can step. Only the joining loop of `safe_game_cleanup`
      needs more: that all remaining word threads are past their last unlock. */
  lemma NoDeadlock(c: Config, s: State)
    requires PlayInv(c, s) && s.main.pc != AtSweep(Ended)
    requires s.main.pc.AtSweep? && s.main.pc.wp.Join? ==> AllPast(s)
    ensures SomeThreadSteps(c, s)
  {
    if s.locks.hash != Nobody {
      InnerHolderSteps(c, s, HashLock);
    } else if s.locks.state != Nobody {
      InnerHolderSteps(c, s, StateLock);
    } else if s.locks.words != Nobody {
      WordsHolderSteps(c, s);
    } else {
      assert s.locks.screen.WordThread? ==> WordLocks(s.locks.screen.id, s.threads[s.locks.screen.id].pc, s.locks);
      if s.locks.screen == MainThread && MainWants(s.main.pc).Some? { MainLockOrder(s.main.pc, ScreenLock); }
      MainCanStep(c, s);
    }
  }

  /** In every state of every run that is not final, some thread can step; while main joins the marked threads at the
      very end, provided they are all past their last unlock. */
  lemma NoDeadlockInRun(c: Config, tr: seq<State>, k: nat)
    requires Run(c, tr) && k < |tr| && tr[k].main.pc != AtSweep(Ended)
    requires tr[k].main.pc.AtSweep? && tr[k].main.pc.wp.Join? ==> AllPast(tr[k])
    ensures SomeThreadSteps(c, tr[k])
  {
    RunInv(c, tr, k);
    NoDeadlock(c, tr[k]);
  }

  /** In every run, whenever `cleanup_finished_threads` waits for a thread, that thread has only to return. */
  lemma ReapingWaitsForReturnOnly(c: Config, tr: seq<State>, k: nat)
    requires Run(c, tr) && k < |tr| && tr[k].main.pc.AtReap? && MainJoins(tr[k])
    ensures var slot := tr[k].slots[tr[k].main.pc.rp.i];
            slot.tid.Some? && tr[k].threads[slot.tid.value].pc == AtExit(Returning)
  {
    RunInv(c, tr, k);
    JoinedIsPast(tr[k]);
  }

  // ---------- when safe_game_cleanup returns ----------

  function CountReturning(ths: seq<Thread>): nat {
    if ths == [] then 0
    else CountReturning(ths[..|ths| - 1]) + (if ths[|ths| - 1].pc == AtExit(Returning) then 1 else 0)
  }

  lemma {:induction false} ReturnLowersCount(ths: seq<Thread>, t: nat)
    requires t < |ths| && ths[t].pc == AtExit(Returning)
    ensures CountReturning(ths[t := ths[t].(pc := AtExit(Done))]) + 1 == CountReturning(ths)
  {
    var ths' := ths[t := ths[t].(pc := AtExit(Done))];
    var n := |ths| - 1;
    if t == n {
      assert ths'[..n] == ths[..n];
    } else {
      assert ths'[..n] == ths[..n][t := ths[t].(pc := AtExit(Done))];
      ReturnLowersCount(ths[..n], t);
    }
  }

  /** The joining loop of `safe_game_cleanup` when every remaining thread is past its last unlock. */
  ghost predicate Safe(c: Config, s: State) {
    && PlayInv(c, s) && s.main.pc.AtSweep? && (s.main.pc.wp.Join? || s.main.pc.wp.Ended?)
    && (s.main.pc.wp.Join? ==> AllPast(s))
  }

  /** Turns and returns still to come. */
  ghost function Left(s: State): nat
    requires Shape(s) && s.main.pc.AtSweep? && (s.main.pc.wp.Join? || s.main.pc.wp.Ended?)
  {
    CountReturning(s.threads) + if s.main.pc.wp.Join? then MAX_WORDS - s.main.pc.wp.i + 1 else 0
  }

  lemma SafeMainStep(c: Config, s: State, x: Choice, s': State)
    requires Safe(c, s) && MainStep(c, s, x) == Some(s')
    ensures Safe(c, s') && Left(s') < Left(s)
  {
    MainKeepsInv(c, s, x, s');
    assert SweepStep(s, s.main.pc.wp) == Some(s');
  }

  lemma SafeWordStep(c: Config, s: State, t: nat, x: Choice, s': State)
    requires Safe(c, s) && s.main.pc != AtSweep(Ended) && t < |s.threads| && WordStep(c, s, t, x) == Some(s')
    ensures Safe(c, s') && Left(s') < Left(s)
  {
    WordKeepsInv(c, s, t, x, s');
    assert ThreadOk(s.main.pc, s.slots, s.threads[t], t);
    assert PastLastUnlock(s.threads[t].pc);
    assert s' == Move(s, t, AtExit(Done));
    ReturnLowersCount(s.threads, t);
  }

  lemma {:induction false} SafeEnds(c: Config, s: State) returns (e: State)
    requires Safe(c, s)
    ensures Reaches(c, s, e) && e.main.pc == AtSweep(Ended)
    decreases Left(s)
  {
    if s.main.pc == AtSweep(Ended) {
      e := s;
      ReachesSelf(c, s);
    } else {
      NoDeadlock(c, s);
      var m: State;
      if MainStep(c, s, ANY).Some? {
        m := MainStep(c, s, ANY).value;
        SafeMainStep(c, s, ANY, m);
        assert MainNext(c, s, m);
      } else {
        var t: nat :| t < |s.threads| && WordStep(c, s, t, ANY).Some?;
        m := WordStep(c, s, t, ANY).value;
        SafeWordStep(c, s, t, ANY, m);
        assert WordNext(c, s, t, m);
      }
      ReachesSelf(c, s);
      ReachesStep(c, s, s, m);
      e := SafeEnds(c, m);
      ReachesTrans(c, s, m, e);
    }
  }

  /** Main waits in the joining loop, holding words_mutex, for a thread that still needs words_mutex. */
  ghost predicate Stuck(c: Config, s: State, i: nat, t: nat) {
    && PlayInv(c, s) && s.main.pc.AtSweep? && s.main.pc.wp.Join? && s.main.pc.wp.i <= i < |s.slots|
    && s.slots[i].tid == Some(t) && !PastLastUnlock(s.threads[t].pc)
  }

  lemma StuckMainStep(c: Config, s: State, x: Choice, s': State, i: nat, t: nat)
    requires Stuck(c, s, i, t) && MainStep(c, s, x) == Some(s') && PlayInv(c, s')
    ensures Stuck(c, s', i, t)
  {
    assert SlotOk(s.main.pc, s.threads, s.slots[i], i);
    assert SweepStep(s, s.main.pc.wp) == Some(s');
  }

  lemma StuckWordStep(c: Config, s: State, u: nat, s': State, i: nat, t: nat)
    requires Stuck(c, s, i, t) && u < |s.threads| && WordEffect(s, u, s') && PlayInv(c, s')
    ensures Stuck(c, s', i, t)
  {
    assert WordLocks(t, s.threads[t].pc, s.locks);
    assert SlotOk(s.main.pc, s.threads, s.slots[i], i);
  }

  lemma StuckForever(c: Config, s: State, s': State, i: nat, t: nat)
    requires Stuck(c, s, i, t) && Next(c, s, s')
    ensures Stuck(c, s', i, t)
  {
    NextKeepsPlayInv(c, s, s');
    if MainNext(c, s, s') {
      var x :| MainStep(c, s, x) == Some(s');
      StuckMainStep(c, s, x, s', i, t);
    } else if u: nat :| u < |s.threads| && WordNext(c, s, u, s') {
      var x :| WordStep(c, s, u, x) == Some(s');
      WordStepEffect(c, s, u, x, s');
      StuckWordStep(c, s, u, s', i, t);
    }
  }

  lemma {:induction false} StuckAlongPath(c: Config, tr: seq<State>, k: nat, i: nat, t: nat)
    requires Path(c, tr) && Stuck(c, tr[0], i, t) && k < |tr|
    ensures Stuck(c, tr[k], i, t)
  {
    if k > 0 {
      StuckAlongPath(c, tr, k - 1, i, t);
      assert StepAt(c, tr, k);
      StuckForever(c, tr[k - 1], tr[k], i, t);
    }
  }

  lemma StuckNeverEnds(c: Config, s: State, e: State, i: nat, t: nat)
    requires Stuck(c, s, i, t) && Reaches(c, s, e)
    ensures e.main.pc != AtSweep(Ended)
  {
    var tr :| Path(c, tr) && tr[0] == s && tr[|tr| - 1] == e;
    StuckAlongPath(c, tr, |tr| - 1, i, t);
  }

  /** `safe_game_cleanup` can return after taking words_mutex for its joining loop if and only if at that
      moment every remaining word thread is past its last unlock; and then it does return within a bounded
      number of steps of the other threads (SafeMainStep, SafeWordStep). */
  lemma CleanupReturnsIff(c: Config, s: State)
    requires PlayInv(c, s) && s.main.pc == AtSweep(Join(0))
    ensures (exists e :: Reaches(c, s, e) && e.main.pc == AtSweep(Ended)) <==> AllPast(s)
  {
    if AllPast(s) {
      var e := SafeEnds(c, s);
    } else {
      var i :| 0 <= i < |s.slots| && s.slots[i].tid.Some? && !PastLastUnlock(s.threads[s.slots[i].tid.value].pc);
      var t := s.slots[i].tid.value;
      forall e | Reaches(c, s, e) ensures e.main.pc != AtSweep(Ended) { StuckNeverEnds(c, s, e, i, t); }
    }
  }
}
