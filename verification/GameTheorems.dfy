/** What a player can rely on, for every run of the game and every interleaving of its threads. */
module GameTheorems {
  import opened Bytes
  import opened Game
  import opened GameLocks
  import opened GameProgress
  import opened GameBooks

  // ---------- spawned = on screen + typed + fallen + abandoned + failed ----------

  datatype Kind = TypedKind | FellKind | AbandonedKind | FailedKind | LandedKind

  function KindOf(e: Event): Kind {
    match e
    case Typed(_, _, _) => TypedKind
    case Fell(_) => FellKind
    case Abandoned(_) => AbandonedKind
    case Failed(_) => FailedKind
    case Landed(_, _, _) => LandedKind
  }

  function CountKind(log: seq<Event>, k: Kind): nat {
    if log == [] then 0 else CountKind(log[..|log| - 1], k) + One(KindOf(log[|log| - 1]) == k)
  }

  function Resolved(log: seq<Event>): nat {
    CountKind(log, TypedKind) + CountKind(log, FellKind) + CountKind(log, AbandonedKind) + CountKind(log, FailedKind)
  }

  function SumResolutions(log: seq<Event>, n: nat): nat {
    if n == 0 then 0 else SumResolutions(log, n - 1) + Resolutions(log, n - 1)
  }

  lemma {:induction false} SumOfEmpty(n: nat)
    ensures SumResolutions([], n) == 0
  {
    if n > 0 { SumOfEmpty(n - 1); }
  }

  lemma {:induction false} SumOfAppend(log: seq<Event>, e: Event, n: nat)
    ensures SumResolutions(log + [e], n) == SumResolutions(log, n) + One(!e.Landed? && e.id < n)
  {
    if n > 0 {
      SumOfAppend(log, e, n - 1);
      LogGrows(log, e);
    }
  }

  /** Counting the resolving events by word or by kind gives the same number. */
  lemma {:induction false} CountBothWays(log: seq<Event>, n: nat)
    requires forall t: nat :: t >= n ==> Resolutions(log, t) == 0
    ensures SumResolutions(log, n) == Resolved(log)
  {
    if log == [] {
      SumOfEmpty(n);
    } else {
      var front, e := log[..|log| - 1], log[|log| - 1];
      assert log == front + [e];
      LogGrows(front, e);
      SumOfAppend(front, e, n);
      assert !e.Landed? ==> Resolutions(log, e.id) > 0;
      CountBothWays(front, n);
    }
  }

  function OnScreenBelow(s: State, n: nat): (r: set<nat>)
    ensures forall t: nat :: t in r <==> t < n && OnScreen(s, t)
  {
    set t: nat | t < n && OnScreen(s, t)
  }

  lemma {:induction false} SumOnce(s: State, n: nat)
    requires Once(s) && n <= |s.threads|
    ensures SumResolutions(s.hist.log, n) + |OnScreenBelow(s, n)| == n
  {
    if n == 0 {
      assert OnScreenBelow(s, 0) == {};
    } else {
      SumOnce(s, n - 1);
      if OnScreen(s, n - 1) {
        assert OnScreenBelow(s, n) == OnScreenBelow(s, n - 1) + {n - 1};
      } else {
        assert OnScreenBelow(s, n) == OnScreenBelow(s, n - 1);
      }
    }
  }

  function ActiveSlots(slots: seq<Slot>): nat {
    if slots == [] then 0 else ActiveSlots(slots[..|slots| - 1]) + One(slots[|slots| - 1].active)
  }

  function WordsIn(slots: seq<Slot>): set<nat> {
    if slots == [] then {}
    else
      var last := slots[|slots| - 1];
      WordsIn(slots[..|slots| - 1]) + if last.active && last.inst.Some? then {last.inst.value} else {}
  }

  predicate Shows(slot: Slot, t: nat) {
    slot.active && slot.inst == Some(t)
  }

  lemma {:induction false} WordsInIs(slots: seq<Slot>, t: nat)
    ensures t in WordsIn(slots) <==> exists i :: 0 <= i < |slots| && Shows(slots[i], t)
  {
    if slots != [] {
      var front := slots[..|slots| - 1];
      WordsInIs(front, t);
      if i :| 0 <= i < |slots| && Shows(slots[i], t) {
        assert i < |front| ==> Shows(front[i], t);
      }
      if t in WordsIn(front) {
        var i :| 0 <= i < |front| && Shows(front[i], t);
        assert Shows(slots[i], t);
      } else if t in WordsIn(slots) {
        assert Shows(slots[|slots| - 1], t);
      }
    }
  }

  ghost predicate OneSlotEach(slots: seq<Slot>) {
    && (forall i :: 0 <= i < |slots| && slots[i].active ==> slots[i].inst.Some?)
    && (forall i, j, t: nat ::
          0 <= i < |slots| && 0 <= j < |slots| && Shows(slots[i], t) && Shows(slots[j], t) ==> i == j)
  }

  lemma {:induction false} ActiveSlotsCount(slots: seq<Slot>)
    requires OneSlotEach(slots)
    ensures |WordsIn(slots)| == ActiveSlots(slots)
  {
    if slots != [] {
      var front, last := slots[..|slots| - 1], slots[|slots| - 1];
      ActiveSlotsCount(front);
      if last.active {
        WordsInIs(front, last.inst.value);
        assert Shows(slots[|slots| - 1], last.inst.value);
      }
    }
  }

  /** Exactly-once resolution: every spawned word is on the screen, typed, fallen, abandoned at the end,
      or never started, and the five counts add up to the words spawned. */
  lemma WordsResolvedOnce(c: Config, tr: seq<State>, k: nat)
    requires ValidConfig(c) && Run(c, tr) && k < |tr|
    ensures var s := tr[k];
      && (forall t: nat :: t < |s.threads| ==> Resolutions(s.hist.log, t) + One(OnScreen(s, t)) == 1)
      && |s.threads| == ActiveSlots(s.slots) + CountKind(s.hist.log, TypedKind) + CountKind(s.hist.log, FellKind)
                        + CountKind(s.hist.log, AbandonedKind) + CountKind(s.hist.log, FailedKind)
  {
    var s := tr[k];
    RunKeepsGameInv(c, tr, k);
    SumOnce(s, |s.threads|);
    CountBothWays(s.hist.log, |s.threads|);
    forall i | 0 <= i < |s.slots| && s.slots[i].active
      ensures s.slots[i].inst.Some? && s.threads[s.slots[i].inst.value].slot == i
    {
      assert SlotOk(s.main.pc, s.threads, s.slots[i], i);
    }
    ActiveSlotsCount(s.slots);
    forall t: nat ensures t in WordsIn(s.slots) <==> t in OnScreenBelow(s, |s.threads|) {
      WordsInIs(s.slots, t);
      if OnScreen(s, t) { assert Shows(s.slots[s.threads[t].slot], t); }
    }
    assert WordsIn(s.slots) == OnScreenBelow(s, |s.threads|);
  }

  function Typings(log: seq<Event>, t: nat): nat {
    if log == [] then 0 else Typings(log[..|log| - 1], t) + One(log[|log| - 1].Typed? && log[|log| - 1].id == t)
  }

  lemma {:induction false} TypingsAndFalls(log: seq<Event>, t: nat)
    ensures Typings(log, t) + Falls(log, t) <= Resolutions(log, t)
  {
    if log != [] { TypingsAndFalls(log[..|log| - 1], t); }
  }

  lemma {:induction false} EventsCount(log: seq<Event>, i: nat)
    requires i < |log|
    ensures log[i].Typed? ==> Typings(log, log[i].id) >= 1
    ensures log[i].Landed? ==> Landings(log, log[i].id) >= 1
  {
    if i < |log| - 1 { EventsCount(log[..|log| - 1], i); }
  }

  /** No word both earns score and costs a life. */
  lemma NeverBoth(c: Config, tr: seq<State>, k: nat, i: nat, j: nat)
    requires ValidConfig(c) && Run(c, tr) && k < |tr| && i < |tr[k].hist.log| && j < |tr[k].hist.log|
    requires tr[k].hist.log[i].Typed? && tr[k].hist.log[j].Landed?
    ensures tr[k].hist.log[i].id != tr[k].hist.log[j].id
  {
    RunKeepsGameInv(c, tr, k);
    var log := tr[k].hist.log;
    EventsCount(log, i);
    EventsCount(log, j);
    TypingsAndFalls(log, log[i].id);
  }

  // ---------- score and lives ----------

  /** How many bytes were typed in words that were not kill words. */
  function Letters(log: seq<Event>): nat {
    if log == [] then 0
    else
      var e := log[|log| - 1];
      Letters(log[..|log| - 1]) + if e.Typed? && e.wtype != Kill then |e.word| else 0
  }

  /** How many bonus words were typed. */
  function Bonuses(log: seq<Event>): nat {
    if log == [] then 0
    else Bonuses(log[..|log| - 1]) + One(log[|log| - 1].Typed? && log[|log| - 1].wtype == Bonus)
  }

  lemma {:induction false} ScoreInLetters(log: seq<Event>)
    ensures ScoreOf(log) == Letters(log) + 50 * Bonuses(log)
  {
    if log != [] { ScoreInLetters(log[..|log| - 1]); }
  }

  /** The score is one point for each byte of the words typed, kill words apart, and 50 for each bonus word, but for one
      word between its lock sections; the text that the credit reads without words_mutex is still the line that was
      submitted. */
  lemma ScoreIsWhatWasTyped(c: Config, tr: seq<State>, k: nat)
    requires ValidConfig(c) && Run(c, tr) && k < |tr|
    ensures var s := tr[k]; var earned := Letters(s.hist.log) + 50 * Bonuses(s.hist.log);
      && (!InFlight(s.main.pc) ==> s.game.score == earned)
      && (InFlight(s.main.pc) ==>
            && s.main.pc.sp.i < |s.slots| && s.slots[s.main.pc.sp.i].text == s.main.input
            && match s.main.pc.sp.wtype
               case Kill => s.game.score == earned
               case Bonus => s.game.score + |s.main.input| + 50 == earned
               case Normal => s.game.score + |s.main.input| == earned)
  {
    RunKeepsGameInv(c, tr, k);
    ScoreInLetters(tr[k].hist.log);
  }

  /** Lives lost are exactly the non-kill words that fell before the game was over: every word falls at most once, and
      each fall has its one turn under the state lock (FallsLand). The game is over only for a reason. */
  lemma LivesAreWhatFell(c: Config, tr: seq<State>, k: nat)
    requires ValidConfig(c) && Run(c, tr) && k < |tr|
    ensures var s := tr[k];
      && s.game.lives == 5 - Charges(s.hist.log) && 0 <= s.game.lives <= 5
      && (!s.game.over ==> s.game.lives > 0)
      && (s.game.over ==> s.game.lives == 0 || KillTyped(s.hist.log) || s.signalled)
      && (forall i :: 0 <= i < |s.slots| && s.slots[i].active ==> 0 <= s.slots[i].y < c.height)
      && FallsLand(s) && (forall t: nat :: Falls(s.hist.log, t) <= 1)
  {
    RunKeepsGameInv(c, tr, k);
    forall t: nat ensures Falls(tr[k].hist.log, t) <= 1 {
      TypingsAndFalls(tr[k].hist.log, t);
      assert Resolutions(tr[k].hist.log, t) <= 1;
    }
  }

  // ---------- after the game is over ----------

  /** What a step can still do once the game is over, in terms of the history counters. */
  predicate OverStep(s: State, s': State) {
    && s'.game.over && s'.game.lives == s.game.lives
    && s'.hist.lateSpawns - s.hist.lateSpawns == |s'.threads| - |s.threads|
    && |s.threads| <= |s'.threads| && s.hist.lateCredits <= s'.hist.lateCredits
    && (s'.game.score != s.game.score ==> s.hist.lateCredits < s'.hist.lateCredits)
    && s'.hist.lateLoops - s.hist.lateLoops == One(s.main.pc == AtReap(LoopEnd) && s'.main.pc == AtKeys(LoopTop))
  }

  lemma KeysOver(s: State, kp: KeysPc, x: Choice, s': State)
    requires s.main.pc == AtKeys(kp) && KeysStep(s, kp, x) == Some(s') && s.game.over
    ensures OverStep(s, s')
  {
  }

  lemma SubmitOver(s: State, sp: SubmitPc, s': State)
    requires Shape(s) && s.main.pc == AtSubmit(sp) && SubmitStep(s, sp) == Some(s') && s.game.over
    ensures OverStep(s, s')
  {
  }

  lemma PickOver(c: Config, s: State, pp: PickPc, x: Choice, s': State)
    requires Shape(s) && s.main.pc == AtPick(pp) && PickStep(c, s, pp, x) == Some(s') && s.game.over
    ensures OverStep(s, s')
  {
  }

  lemma CreateOver(s: State, cp: CreatePc, x: Choice, s': State)
    requires Shape(s) && s.main.pc == AtCreate(cp) && CreateStep(s, cp, x) == Some(s') && s.game.over
    ensures OverStep(s, s')
  {
  }

  lemma ReapOver(s: State, rp: ReapPc, s': State)
    requires Shape(s) && s.main.pc == AtReap(rp) && ReapStep(s, rp) == Some(s') && s.game.over
    ensures OverStep(s, s')
  {
  }

  lemma SweepOver(s: State, wp: SweepPc, s': State)
    requires Shape(s) && s.main.pc == AtSweep(wp) && SweepStep(s, wp) == Some(s') && s.game.over
    ensures OverStep(s, s')
  {
  }

  lemma MainOver(c: Config, s: State, x: Choice, s': State)
    requires Inv(s) && MainStep(c, s, x) == Some(s') && s.game.over
    ensures OverStep(s, s')
  {
    match s.main.pc
    case AtKeys(kp) => KeysOver(s, kp, x, s');
    case AtSubmit(sp) => SubmitOver(s, sp, s');
    case AtTimer(tp) => TimerLocks(c, s, tp, x, s');
    case AtPick(pp) => PickOver(c, s, pp, x, s');
    case AtCreate(cp) => CreateOver(s, cp, x, s');
    case AtDraw(dp, final) => DrawLocks(s, dp, final, s');
    case AtReap(rp) => ReapOver(s, rp, s');
    case AtSweep(wp) => SweepOver(s, wp, s');
  }

  lemma WordOver(c: Config, s: State, t: nat, x: Choice, s': State)
    requires Shape(s) && t < |s.threads| && WordStep(c, s, t, x) == Some(s') && s.game.over
    ensures OverStep(s, s')
  {
    WordStepEffect(c, s, t, x, s');
    match s.threads[t].pc
    case AtPoll(pp) => assert PollStep(s, t, pp, x) == Some(s');
    case AtDrop(dp) => assert DropStep(c, s, t, dp) == Some(s');
    case AtExit(ep) => assert ExitStep(s, t, ep) == Some(s');
    case _ =>
  }

  lemma NextOver(c: Config, s: State, s': State)
    requires Inv(s) && Next(c, s, s') && s.game.over
    ensures OverStep(s, s')
  {
    if MainNext(c, s, s') {
      var x :| MainStep(c, s, x) == Some(s');
      MainOver(c, s, x, s');
    } else if t: nat :| t < |s.threads| && WordNext(c, s, t, s') {
      var x :| WordStep(c, s, t, x) == Some(s');
      WordOver(c, s, t, x, s');
    }
  }

  /** How often the main loop starts again between two moments of a run. */
  function LoopStarts(tr: seq<State>, j: nat, k: nat): nat
    requires j <= k < |tr|
  {
    if j == k then 0
    else LoopStarts(tr, j, k - 1) + One(tr[k - 1].main.pc == AtReap(LoopEnd) && tr[k].main.pc == AtKeys(LoopTop))
  }

  /** At how many steps between two moments of a run the score changes. */
  function Credits(tr: seq<State>, j: nat, k: nat): nat
    requires j <= k < |tr|
  {
    if j == k then 0 else Credits(tr, j, k - 1) + One(tr[k].game.score != tr[k - 1].game.score)
  }

  lemma StepOver(c: Config, tr: seq<State>, k: nat)
    requires Run(c, tr) && 0 < k < |tr| && tr[k - 1].game.over
    ensures OverStep(tr[k - 1], tr[k])
  {
    RunInv(c, tr, k - 1);
    assert StepAt(c, tr, k);
    NextOver(c, tr[k - 1], tr[k]);
  }

  lemma {:induction false} OverStaysOver(c: Config, tr: seq<State>, j: nat, k: nat)
    requires Run(c, tr) && j <= k < |tr| && tr[j].game.over
    ensures tr[k].game.over && tr[k].game.lives == tr[j].game.lives
    ensures tr[k].hist.lateSpawns - tr[j].hist.lateSpawns == |tr[k].threads| - |tr[j].threads| >= 0
    ensures Credits(tr, j, k) <= tr[k].hist.lateCredits - tr[j].hist.lateCredits
    ensures tr[k].hist.lateLoops - tr[j].hist.lateLoops == LoopStarts(tr, j, k)
  {
    if j < k {
      OverStaysOver(c, tr, j, k - 1);
      StepOver(c, tr, k);
    }
  }

  lemma LateInRun(c: Config, tr: seq<State>, k: nat)
    requires ValidConfig(c) && Run(c, tr) && k < |tr|
    ensures LateOk(tr[k])
  {
    RunKeepsGameInv(c, tr, k);
  }

  /** Once the game is over it stays over and no life is lost. At most one effect follows, one credit or one spawn,
      and the main loop starts at most once more. */
  lemma AtMostOneLateEffect(c: Config, tr: seq<State>, j: nat, k: nat)
    requires ValidConfig(c) && Run(c, tr) && j <= k < |tr| && tr[j].game.over
    ensures tr[k].game.over && tr[k].game.lives == tr[j].game.lives
    ensures |tr[j].threads| <= |tr[k].threads|
    ensures Credits(tr, j, k) + |tr[k].threads| - |tr[j].threads| <= 1
    ensures LoopStarts(tr, j, k) <= 1
  {
    OverStaysOver(c, tr, j, k);
    LateInRun(c, tr, k);
  }

  // ---------- kill words ----------

  /** A typed kill word ends the game, at the latest when its turn under the state lock is over. */
  ghost predicate KillEnds(s: State) {
    KillTyped(s.hist.log) ==> s.game.over || (InFlight(s.main.pc) && s.main.pc.sp.wtype == Kill)
  }

  lemma SubmitKill(s: State, sp: SubmitPc, s': State)
    requires Shape(s) && s.main.pc == AtSubmit(sp) && SubmitStep(s, sp) == Some(s') && KillEnds(s)
    ensures KillEnds(s')
  {
    if sp.SubmitIn? && s'.hist.log != s.hist.log { LogGrows(s.hist.log, s'.hist.log[|s'.hist.log| - 1]); }
  }

  lemma CreateKill(s: State, cp: CreatePc, x: Choice, s': State)
    requires Shape(s) && s.main.pc == AtCreate(cp) && CreateStep(s, cp, x) == Some(s')
    ensures KillTyped(s'.hist.log) == KillTyped(s.hist.log)
  {
    if s'.hist.log != s.hist.log { LogGrows(s.hist.log, s'.hist.log[|s'.hist.log| - 1]); }
  }

  lemma PickKill(c: Config, s: State, pp: PickPc, x: Choice, s': State)
    requires Shape(s) && s.main.pc == AtPick(pp) && PickStep(c, s, pp, x) == Some(s')
    ensures s'.hist.log == s.hist.log
  {
  }

  lemma MainKill(c: Config, s: State, x: Choice, s': State)
    requires Inv(s) && MainStep(c, s, x) == Some(s') && KillEnds(s)
    ensures KillEnds(s')
  {
    if s.game.over { MainOver(c, s, x, s'); }
    match s.main.pc
    case AtKeys(kp) => KeysData(s, kp, x, s');
    case AtSubmit(sp) => SubmitKill(s, sp, s');
    case AtPick(pp) => PickKill(c, s, pp, x, s');
    case AtCreate(cp) => CreateKill(s, cp, x, s');
    case AtDraw(dp, final) => DrawData(s, dp, final, s');
    case _ =>
  }

  lemma WordKill(c: Config, s: State, t: nat, x: Choice, s': State)
    requires Shape(s) && t < |s.threads| && WordStep(c, s, t, x) == Some(s')
    ensures KillTyped(s'.hist.log) == KillTyped(s.hist.log)
  {
    match s.threads[t].pc {
      case AtPoll(pp) => assert PollStep(s, t, pp, x) == Some(s');
      case AtDrop(dp) => assert DropStep(c, s, t, dp) == Some(s');
      case AtExit(ep) => assert ExitStep(s, t, ep) == Some(s');
      case _ =>
    }
    if s'.hist.log != s.hist.log { LogGrows(s.hist.log, s'.hist.log[|s'.hist.log| - 1]); }
  }

  lemma NextKill(c: Config, s: State, s': State)
    requires Inv(s) && Next(c, s, s') && KillEnds(s)
    ensures KillEnds(s')
  {
    if MainNext(c, s, s') {
      var x :| MainStep(c, s, x) == Some(s');
      MainKill(c, s, x, s');
    } else if t: nat :| t < |s.threads| && WordNext(c, s, t, s') {
      var x :| WordStep(c, s, t, x) == Some(s');
      WordKill(c, s, t, x, s');
      WordStepEffect(c, s, t, x, s');
      if s.game.over { WordOver(c, s, t, x, s'); }
    }
  }

  lemma StepKill(c: Config, tr: seq<State>, k: nat)
    requires Run(c, tr) && 0 < k < |tr| && KillEnds(tr[k - 1])
    ensures KillEnds(tr[k])
  {
    RunInv(c, tr, k - 1);
    assert StepAt(c, tr, k);
    NextKill(c, tr[k - 1], tr[k]);
  }

  /** The game is over as soon as a kill word has been typed and is no longer in flight. */
  lemma {:induction false} KillWordEndsGame(c: Config, tr: seq<State>, k: nat)
    requires Run(c, tr) && k < |tr|
    ensures KillEnds(tr[k])
  {
    if k > 0 {
      KillWordEndsGame(c, tr, k - 1);
      StepKill(c, tr, k);
    }
  }

  // ---------- the input line ----------

  /** A line that fits current_input_buffer with its NUL and holds what can be typed: no blank, which submits. */
  predicate Typeable(input: Bytes) {
    |input| < 40 && forall i :: 0 <= i < |input| ==> 32 < input[i] as int <= 126
  }

  lemma KeysInput(s: State, kp: KeysPc, x: Choice, s': State)
    requires s.main.pc == AtKeys(kp) && KeysStep(s, kp, x) == Some(s') && Typeable(s.main.input)
    ensures Typeable(s'.main.input)
  {
  }

  lemma PickInput(c: Config, s: State, pp: PickPc, x: Choice, s': State)
    requires Shape(s) && s.main.pc == AtPick(pp) && PickStep(c, s, pp, x) == Some(s')
    ensures s'.main.input == s.main.input
  {
  }

  lemma CreateInput(s: State, cp: CreatePc, x: Choice, s': State)
    requires Shape(s) && s.main.pc == AtCreate(cp) && CreateStep(s, cp, x) == Some(s')
    ensures s'.main.input == s.main.input
  {
  }

  lemma MainInput(c: Config, s: State, x: Choice, s': State)
    requires Inv(s) && MainStep(c, s, x) == Some(s') && Typeable(s.main.input)
    ensures Typeable(s'.main.input)
  {
    match s.main.pc
    case AtKeys(kp) => KeysInput(s, kp, x, s');
    case AtPick(pp) => PickInput(c, s, pp, x, s');
    case AtCreate(cp) => CreateInput(s, cp, x, s');
    case AtDraw(dp, final) => DrawLocks(s, dp, final, s');
    case _ =>
  }

  /** The input line never overflows its buffer and only ever holds bytes that can be typed into it. */
  lemma {:induction false} InputFits(c: Config, tr: seq<State>, k: nat)
    requires Run(c, tr) && k < |tr|
    ensures Typeable(tr[k].main.input)
  {
    if k > 0 {
      var s, s' := tr[k - 1], tr[k];
      InputFits(c, tr, k - 1);
      RunInv(c, tr, k - 1);
      assert StepAt(c, tr, k);
      if MainNext(c, s, s') {
        var x :| MainStep(c, s, x) == Some(s');
        MainInput(c, s, x, s');
      } else if t: nat :| t < |s.threads| && WordNext(c, s, t, s') {
        var x :| WordStep(c, s, t, x) == Some(s');
        WordStepEffect(c, s, t, x, s');
      }
    }
  }

  // ---------- the scan for the word a line hits ----------

  /** `(wtype == WORD_KILL) ? 0 : (wtype == WORD_BONUS) ? 1 : 2`. */
  function Priority(wtype: WordType): int {
    match wtype case Kill => 0 case Bonus => 1 case Normal => 2
  }

  /** The loop of `process_game_input` over `words[]`: best priority first, then lowest on the screen,
      then lowest index. */
  method ScanForTarget(words: array<Slot>, input: Bytes) returns (target: int)
    ensures IsTarget(words[..], input, words.Length, target)
    ensures target == TargetUpTo(words[..], input, words.Length)
  {
    target := -1;
    var bestPrio, bestY := 3, -1;
    var i := 0;
    while i < words.Length
      invariant 0 <= i <= words.Length
      invariant target == TargetUpTo(words[..], input, i)
      invariant target == -1 ==> bestPrio == 3
      invariant target != -1 ==> bestPrio == Priority(words[target].wtype) && bestY == words[target].y
    {
      if words[i].active && words[i].text == input {
        var prio := Priority(words[i].wtype);
        if prio < bestPrio || (prio == bestPrio && words[i].y > bestY) {
          bestPrio, bestY, target := prio, words[i].y, i;
        }
      }
      i := i + 1;
    }
  }

  /** The three rules leave at most one candidate. */
  lemma TargetIsUnique(slots: seq<Slot>, input: Bytes, n: nat, a: int, b: int)
    requires n <= |slots| && IsTarget(slots, input, n, a) && IsTarget(slots, input, n, b)
    ensures a == b
  {
  }
}
